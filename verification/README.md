# Resumable breadth-first crawler of iyte.edu.tr

This project models the crawl engine of `scrapermain.py` in Dafny: the
`Crawler` class that resumes a crawl from its SQLite store, and the
`DatabaseManager.save_page` update it makes to that store.

On start-up, `Crawler.__init__` rebuilds the frontier from the persisted
tables:

- every stored page URL is marked as seen, and `page_count` is set to the
  number of page rows;
- every distinct link target that is not a stored page and whose host
  contains `iyte.edu.tr` is queued and marked as seen;
- the start URL is queued only when the queue is still empty and no page is
  stored.

`Crawler.run` is a FIFO work-list loop. It runs while the queue is non-empty
and `page_count < max_pages`. Each iteration pops the front URL. When the
fetch succeeds (status 200 and an HTML content type), it saves the page and
its links, counts the page, and appends every link `is_valid_link` accepts.
Otherwise the URL is dropped.

The model has five modules:

- `Scope` (`scope.dfy`) holds the substring test and `is_valid_link`.
- `Store` (`store.dfy`) holds the two tables and the `PageStore` class whose
  `SavePage` method is `save_page`.
- `Frontier` (`frontier.dfy`) holds the specification: the rebuild
  (`Rebuild`), one loop iteration (`Step`), the whole loop (`Crawl`) and the
  sequence of popped URLs (`Visits`).
- `CrawlProperties` (`properties.dfy`) holds the lemmas that relate several
  steps, or a run and the rebuild that follows it.
- `CrawlEngine` (`crawler.dfy`) holds the class `Crawler`. Its fields change
  in place. Its constructor and `Run` are proved to compute exactly
  `Rebuild` and `Crawl`, and to keep the frontier invariant `Consistent`:
  - the queue has no duplicates;
  - every queued URL is in `seen`;
  - every in-scope link target in the store has been seen.

The outside world is made of parameters:

- `netloc : string -> Option<string>` stands for `urlparse(url).netloc`;
  `None` means that parsing raised.
- `fetch : string -> Outcome` is the request plus the HTML parser:
  `FetchErr` (any exception), `Non200`, `NonHtml` or `Ok(title, text, links)`.
- `writeFails : string -> bool` says whether the database raised inside
  `save_page` for that URL.

A function of the URL loses nothing within one run, because a run pops each
URL at most once (`VisitsNoDup`).

Two behaviours of the code a reader might not expect:

- The seed is added when the rebuilt queue is empty **and** `page_count == 0`
  (scrapermain.py:122). The comment above it (scrapermain.py:121) names only
  the empty queue. The seed does not depend on `seen` or on the pending links
  being empty.
- A URL whose fetch failed is not re-fetched within the same run. A later
  start-up re-queues it, though, when it is an in-scope link target that
  never became a page row. `Rebuild`'s last postcondition states this: in
  the unseeded case the queue holds exactly the in-scope link targets that
  are not stored pages. Conversely, `ResumeRequeuesOnlyUnsaved` shows that
  after a run that emptied its queue, only URLs popped in that run and never
  stored are re-queued.

## Model

| member | source | states |
|---|---|---|
| Scope.Contains | scrapermain.py:143 | the scan returns true exactly when `sub` occurs as a contiguous piece of `s`, as Python's `sub in s` does |
| Scope.IsValidLink | scrapermain.py:140-145 | true exactly when the URL is not in `seen`, its netloc parses and contains `iyte.edu.tr`; a URL whose parsing raises is rejected |
| Store.UrlColumn | scrapermain.py:91-92 | `SELECT url FROM pages` returns one URL per page row (the model lists them in row order), and its set of elements is the set of stored URLs |
| Store.Pending | scrapermain.py:103-109 | the rebuild query returns each link target that is not a stored page, exactly once, and nothing else |
| Store.Save | scrapermain.py:57-73 | a database error leaves both tables unchanged; otherwise the page URL becomes stored, an existing row with that URL is never changed, a new row is appended when absent, one link row per found link is appended, and URL uniqueness is kept |
| Store.PageStore.SavePage | scrapermain.py:57-73 | the store's new tables are `Save` of the old ones, and URL uniqueness is kept |
| Frontier.FreshProperties | scrapermain.py:112-117 | the links admitted one after another by the scope-and-unseen test are duplicate-free, keep their order in the input and follow the first occurrence of each link when the input repeats one, are in scope and were unseen; every in-scope input link ends up seen or admitted |
| Frontier.Rebuild | scrapermain.py:89-124 | the rebuilt state keeps the tables, has `page_count` = number of page rows, `seen` = stored URLs plus the queue, satisfies the frontier invariant; the queue is `[start]` with `seen == {start}` when no page is stored and no in-scope link target is pending (out-of-scope pending targets do not prevent the seed), and otherwise holds exactly the in-scope targets that are not pages |
| Frontier.Step | scrapermain.py:151-177 | one iteration pops the front URL; `page_count` grows by one exactly on `Ok`; the rest of the queue stays in front of the newly appended links; the appended links are distinct, in scope, previously unseen, in order of first occurrence on the page, and are exactly what `seen` gains; on `Ok` every in-scope link found on the page ends up in `seen`, so every in-scope link not seen before is appended; on a non-`Ok` outcome nothing but the pop happens; on `Ok` the tables become `Save` of the old ones |
| Frontier.Crawl | scrapermain.py:150-183 | the loop ends with an empty queue or `page_count >= max_pages`; it does nothing when started halted; `page_count` never decreases and never exceeds `max_pages` unless it started there; `seen` only grows; the tables only grow by appending |
| CrawlProperties.FreshOfUnseen | scrapermain.py:112-117 | on a duplicate-free list none of whose URLs is seen, the admission loop keeps exactly the in-scope URLs, in order |
| CrawlProperties.RebuildQueueOrder | scrapermain.py:103-124 | the rebuilt queue is the in-scope part of the pending-target query in the query's order, or `[start]` when that is empty and no page is stored |
| CrawlProperties.StepConsistent | scrapermain.py:150-174 | one iteration keeps the frontier invariant (no duplicate in the queue, queue inside `seen`, every in-scope stored link target seen); the popped URL stays in `seen` and leaves the queue |
| CrawlProperties.CrawlConsistent | scrapermain.py:150-183 | the whole loop keeps the frontier invariant |
| CrawlProperties.VisitsNoDup | scrapermain.py:150-174 | no URL is popped twice in a run, and every popped URL was queued at the start or unseen then |
| CrawlProperties.VisitsFifo | scrapermain.py:150-173 | while the budget allows, the URLs queued now are the first ones popped, in queue order |
| CrawlProperties.CrawlCountsOkVisits | scrapermain.py:150-167 | the final `page_count` is the initial one plus the number of popped URLs whose fetch was `Ok`, including those whose write failed or was ignored |
| CrawlProperties.CrawlAccountsForSeen | scrapermain.py:150-174 | every URL in the final `seen` is a stored page, still queued, popped during the run, or already accounted for at the start |
| CrawlProperties.CrawlSavesCleanVisits | scrapermain.py:165-167 | every popped URL whose fetch was `Ok` and whose write succeeded is a stored page at the end |
| CrawlProperties.CrawlStoresOnlyCleanVisits | scrapermain.py:150-183 | conversely, every page stored at the end was stored at the start, or was popped with an `Ok` fetch and a successful write; this holds under the model's all-or-nothing write (`Store.Save` under "Left out"); in the source, a failed `save_page` can leave inserts pending that a later successful commit stores |
| CrawlProperties.ResumeRequeuesOnlyUnsaved | scrapermain.py:103-117 | after a run that emptied its queue, every URL the next start-up would queue was popped in that run and never stored |
| CrawlProperties.ResumeAfterCleanRun | scrapermain.py:89-124 | after a run that emptied its queue with every fetch `Ok` and every write successful, the next start-up queues nothing and marks exactly the stored pages as seen |
| CrawlProperties.IdleResume | scrapermain.py:122-124 | with pages stored and no in-scope pending target, the rebuilt queue is empty, no seed is added, and the loop pops nothing and changes nothing |
| CrawlProperties.EmptyStoreBootstrap | scrapermain.py:122-124 | on an empty store the rebuilt state is the start URL alone in queue and `seen`, with `page_count == 0` |
| CrawlProperties.BreadthFirstExample | scrapermain.py:122-173 | from an empty store with start A, where A links to B and C and B links to D, the crawl pops A, B, C, D (breadth first), not A, B, D, C, whatever the writes do; the helper lemmas `SmallWebStepA`-`D` and `SmallWebFromA`-`D` fix each intermediate queue |
| CrawlEngine.MarkVisited | scrapermain.py:96-97 | the loop over the stored URLs yields exactly the set of those URLs |
| CrawlEngine.Crawler.AdmitPending | scrapermain.py:112-117 | the rebuild loop appends to the queue, and adds to `seen`, exactly the admitted pending targets `Fresh` describes |
| CrawlEngine.Crawler.AdmitLinks | scrapermain.py:169-174 | the link loop of `run` appends to the queue, and adds to `seen`, exactly the links `is_valid_link` admits one after another (`Fresh`) |
| CrawlEngine.Crawler.constructor | scrapermain.py:79-124 | the new crawler's state is `Rebuild` of the persisted tables, with the given budget (100000 by default), and satisfies the frontier invariant |
| CrawlEngine.Crawler.Run | scrapermain.py:147-183 | the crawler's final state is `Crawl` of its initial state, and the frontier invariant still holds |

## Left out

- `PageParser` (BeautifulSoup and `urljoin`) is not part of this model. Its
  title, text and absolute links are the payload of the `Ok` outcome.
- The HTTP session, retry adapter, headers, timeout and `verify=False` are
  not modelled. The request is the `fetch` parameter.
- `time.sleep`, `time.strftime` and every `print` are left out: they have no
  effect on the crawl state.
- SQLite specifics are left out: the connection, `CREATE TABLE`, the cursor,
  `commit`, `close`, row ids beyond row order, and the `crawled_at` column.
- SQL leaves the order of a query result unspecified without `ORDER BY`.
  `Pending` fixes the `SELECT DISTINCT` order to the order of each target's
  first link row. `UrlColumn` fixes the order of `SELECT url FROM pages`
  (scrapermain.py:91) to row order, although SQLite may answer it in URL
  order from the UNIQUE index. Only the length (line 93) and the set
  (lines 96-97) of that result are used, so its order has no effect.
- Store.Save: a failing `save_page` is modelled as writing nothing. The
  source neither rolls back nor re-raises (scrapermain.py:72-73), so SQLite's
  implicit transaction keeps whatever was inserted before the error. If
  `executemany` (lines 66-69) raises, the page row stays pending. If
  `commit()` (line 71) raises, for example because the database is locked,
  the page row and all its link rows stay pending. The next successful
  `save_page` commits them, and only `close()` (line 182) discards them.
  That is not modelled.
- CrawlStoresOnlyCleanVisits: it does not hold of the source when a later
  `save_page` commits the pending inserts of a failed one; then a page whose
  write failed is stored at the end.
- `urlparse` is not modelled: `netloc` is a parameter.
- Crawler.constructor: it requires every pending link target to parse. The
  scope test in the rebuild loop (scrapermain.py:114) is outside any `try`,
  so a target whose parsing raises would abort start-up. That exception path
  is not modelled.
- `usedb.py` and `rowcheck.py` are not part of this model. They are read-only
  queries with console output and contain no crawl logic.
- `start_url` in the `__main__` block is not modelled. The start URL is a
  constructor parameter.
