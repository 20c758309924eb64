/** The crawl engine of `scrapermain.py` as a pure state machine: the frontier
    that `Crawler.__init__` rebuilds from the store, one iteration of the
    `Crawler.run` loop, and the whole loop. The class in CrawlEngine is
    proved to compute exactly these functions. */
module Frontier {
  import opened Scope
  import opened Store

  /** What fetching and parsing one URL produced. `FetchErr` is any exception
      raised by the request or by the HTML parser; `Ok` carries the parser's
      title, text and absolute links. */
  datatype Outcome =
    | FetchErr
    | Non200
    | NonHtml
    | Ok(title: Option<string>, text: string, links: seq<string>)

  /** The page budget and everything outside the crawler: URL parsing, the
      network and database write failures. A run pops every URL at most once
      (VisitsNoDup), so modelling the network as a function of the URL loses
      nothing within one run. */
  datatype Env = Env(
    maxPages: int,
    netloc: string -> Option<string>,
    fetch: string -> Outcome,
    writeFails: string -> bool)

  /** The crawler's fields together with the store's tables. */
  datatype CrawlState = CrawlState(queue: seq<string>, seen: set<string>, pageCount: int, tables: Tables)

  /** `r` is `s` with some elements left out. */
  ghost predicate IsSubsequence(r: seq<string>, s: seq<string>)
    decreases |s|
  {
    if r == [] then true
    else if s == [] then false
    else (r[0] == s[0] && IsSubsequence(r[1..], s[1..])) || IsSubsequence(r, s[1..])
  }

  /** The links of `found` that pass `is_valid_link` one after another, each
      accepted link joining `seen` before the next one is tested. */
  function Fresh(netloc: string -> Option<string>, seen: set<string>, found: seq<string>): seq<string>
    decreases |found|
  {
    if found == [] then []
    else
      var u := found[0];
      if IsValidLink(netloc, seen, u) then [u] + Fresh(netloc, seen + {u}, found[1..])
      else Fresh(netloc, seen, found[1..])
  }

  /** `added` is in order of first discovery in `found`: wherever a later
      element of `added` occurs in `found`, every earlier element of `added`
      has already occurred. With repeated links this fixes the order that
      IsSubsequence alone leaves open. */
  ghost predicate InDiscoveryOrder(added: seq<string>, found: seq<string>)
  {
    forall i, j, k :: 0 <= i < |found| && 0 <= j < k < |added| && found[i] == added[k] ==>
      added[j] in found[..i]
  }

  /** Admitting a new first link keeps discovery order. */
  lemma DiscoveryOrderCons(u: string, rest: seq<string>, tail: seq<string>)
    requires InDiscoveryOrder(tail, rest) && u !in tail
    ensures InDiscoveryOrder([u] + tail, [u] + rest)
  {
    var added, found := [u] + tail, [u] + rest;
    forall i, j, k | 0 <= i < |found| && 0 <= j < k < |added| && found[i] == added[k]
      ensures added[j] in found[..i]
    {
      assert added[k] == tail[k - 1] && tail[k - 1] in tail;
      assert found[..i] == [u] + rest[..i - 1];
      if j != 0 {
        assert rest[i - 1] == tail[k - 1];
        assert added[j] == tail[j - 1];
      }
    }
  }

  /** Skipping a first link that is never admitted keeps discovery order. */
  lemma DiscoveryOrderSkip(u: string, rest: seq<string>, added: seq<string>)
    requires InDiscoveryOrder(added, rest) && u !in added
    ensures InDiscoveryOrder(added, [u] + rest)
  {
    var found := [u] + rest;
    forall i, j, k | 0 <= i < |found| && 0 <= j < k < |added| && found[i] == added[k]
      ensures added[j] in found[..i]
    {
      assert added[k] in added;
      assert found[..i] == [u] + rest[..i - 1];
      assert rest[i - 1] == added[k];
    }
  }

  /** Fresh admits links in order of first discovery. */
  lemma {:induction false} FreshInDiscoveryOrder(netloc: string -> Option<string>, seen: set<string>, found: seq<string>)
    ensures InDiscoveryOrder(Fresh(netloc, seen, found), found)
    ensures forall u :: u in Fresh(netloc, seen, found) ==> u !in seen && InScope(netloc, u)
    decreases |found|
  {
    if found != [] {
      var u, rest := found[0], found[1..];
      assert found == [u] + rest;
      if IsValidLink(netloc, seen, u) {
        FreshInDiscoveryOrder(netloc, seen + {u}, rest);
        DiscoveryOrderCons(u, rest, Fresh(netloc, seen + {u}, rest));
      } else {
        FreshInDiscoveryOrder(netloc, seen, rest);
        DiscoveryOrderSkip(u, rest, Fresh(netloc, seen, rest));
      }
    }
  }

  /** The admitted links are distinct, keep their order in `found` (in order
      of first discovery when `found` repeats a link), are in scope and were
      unseen; every in-scope link of `found` ends up seen or admitted. */
  lemma {:induction false} FreshProperties(netloc: string -> Option<string>, seen: set<string>, found: seq<string>)
    ensures var added := Fresh(netloc, seen, found);
            && NoDup(added)
            && IsSubsequence(added, found)
            && InDiscoveryOrder(added, found)
            && (forall u :: u in added ==> u in found && u !in seen && InScope(netloc, u))
            && (forall u :: u in found && InScope(netloc, u) ==> u in seen || u in added)
    decreases |found|
  {
    FreshInDiscoveryOrder(netloc, seen, found);
    if found != [] {
      var u := found[0];
      if IsValidLink(netloc, seen, u) {
        FreshProperties(netloc, seen + {u}, found[1..]);
        assert u !in Fresh(netloc, seen + {u}, found[1..]);
      } else {
        FreshProperties(netloc, seen, found[1..]);
      }
    }
  }

  /** `u` is a link target that is not a stored page and is in scope: the
      URLs a rebuild puts back in the queue. */
  ghost predicate Awaiting(t: Tables, netloc: string -> Option<string>, u: string)
  {
    u in Targets(t.links) && u !in Urls(t.pages) && InScope(netloc, u)
  }

  /** The queue is duplicate-free and inside `seen`. */
  ghost predicate QueueInSeen(st: CrawlState)
  {
    NoDup(st.queue) && Elems(st.queue) <= st.seen
  }

  /** The frontier invariant: besides QueueInSeen, every in-scope link target
      recorded in the store has been seen, so it is queued, crawled or given
      up on. */
  ghost predicate Consistent(st: CrawlState, netloc: string -> Option<string>)
  {
    && QueueInSeen(st)
    && forall u :: u in Targets(st.tables.links) && InScope(netloc, u) ==> u in st.seen
  }

  /** The frontier `Crawler.__init__` builds from the persisted tables `t`. */
  function Rebuild(t: Tables, start: string, netloc: string -> Option<string>): (st: CrawlState)
    ensures st.tables == t
    ensures st.pageCount == |t.pages|
    ensures st.seen == Urls(t.pages) + Elems(st.queue)
    ensures Consistent(st, netloc)
    ensures (t.pages == [] && forall u :: !Awaiting(t, netloc, u)) ==>
              st.queue == [start] && st.seen == {start}
    ensures !(t.pages == [] && forall u :: !Awaiting(t, netloc, u)) ==>
              forall u :: u in st.queue <==> Awaiting(t, netloc, u)
  {
    var done := Urls(t.pages);
    var queue := Fresh(netloc, done, Pending(done, t.links));
    FreshProperties(netloc, done, Pending(done, t.links));
    assert forall u :: u in queue <==> Awaiting(t, netloc, u);
    assert queue != [] ==> Awaiting(t, netloc, queue[0]);
    var seen := done + Elems(queue);
    if queue == [] && |t.pages| == 0 then
      CrawlState([start], seen + {start}, |t.pages|, t)
    else
      CrawlState(queue, seen, |t.pages|, t)
  }

  /** The loop condition of `Crawler.run` is false. */
  predicate Halted(st: CrawlState, maxPages: int)
  {
    st.queue == [] || st.pageCount >= maxPages
  }

  /** One iteration of the `Crawler.run` loop: pop the front URL; on an `Ok`
      outcome save the page, count it and append the links `is_valid_link`
      accepts; on any other outcome only the pop remains. */
  function Step(st: CrawlState, env: Env): (r: CrawlState)
    requires st.queue != []
    ensures r.pageCount == if env.fetch(st.queue[0]).Ok? then st.pageCount + 1 else st.pageCount
    ensures st.queue[1..] <= r.queue
    ensures st.seen <= r.seen
    ensures r.seen - st.seen == Elems(r.queue[|st.queue| - 1..])
    ensures NoDup(r.queue[|st.queue| - 1..])
    ensures forall u :: u in r.queue[|st.queue| - 1..] ==> u !in st.seen && InScope(env.netloc, u)
    ensures st.tables.pages <= r.tables.pages && st.tables.links <= r.tables.links
    ensures !env.fetch(st.queue[0]).Ok? ==>
              r.queue == st.queue[1..] && r.seen == st.seen && r.tables == st.tables
    ensures env.fetch(st.queue[0]).Ok? ==>
              && IsSubsequence(r.queue[|st.queue| - 1..], env.fetch(st.queue[0]).links)
              && InDiscoveryOrder(r.queue[|st.queue| - 1..], env.fetch(st.queue[0]).links)
              && (forall u :: u in env.fetch(st.queue[0]).links && InScope(env.netloc, u) ==> u in r.seen)
              && r.tables == Save(st.tables, st.queue[0], env.fetch(st.queue[0]).title,
                                  env.fetch(st.queue[0]).text, env.fetch(st.queue[0]).links,
                                  env.writeFails(st.queue[0]))
  {
    var url := st.queue[0];
    var rest := st.queue[1..];
    match env.fetch(url)
    case Ok(title, text, found) =>
      var added := Fresh(env.netloc, st.seen, found);
      FreshProperties(env.netloc, st.seen, found);
      assert (rest + added)[|st.queue| - 1..] == added;
      CrawlState(rest + added, st.seen + Elems(added), st.pageCount + 1,
                 Save(st.tables, url, title, text, found, env.writeFails(url)))
    case _ =>
      st.(queue := rest)
  }

  /** The whole `Crawler.run` loop. */
  function Crawl(st: CrawlState, env: Env): (r: CrawlState)
    ensures Halted(r, env.maxPages)
    ensures Halted(st, env.maxPages) ==> r == st
    ensures st.pageCount <= r.pageCount
    ensures st.pageCount < env.maxPages ==> r.pageCount <= env.maxPages
    ensures st.seen <= r.seen
    ensures st.tables.pages <= r.tables.pages && st.tables.links <= r.tables.links
    decreases env.maxPages - st.pageCount, |st.queue|
  {
    if Halted(st, env.maxPages) then st else Crawl(Step(st, env), env)
  }

  /** The URLs the loop pops, in order. */
  function Visits(st: CrawlState, env: Env): seq<string>
    decreases env.maxPages - st.pageCount, |st.queue|
  {
    if Halted(st, env.maxPages) then [] else [st.queue[0]] + Visits(Step(st, env), env)
  }

  /** How many of `urls` fetch with an `Ok` outcome. */
  function OkCount(urls: seq<string>, fetch: string -> Outcome): nat
  {
    if urls == [] then 0
    else (if fetch(urls[0]).Ok? then 1 else 0) + OkCount(urls[1..], fetch)
  }

  /** The links `found` that the filter keeps, in order. */
  function InScopeOnly(netloc: string -> Option<string>, found: seq<string>): seq<string>
  {
    if found == [] then []
    else (if InScope(netloc, found[0]) then [found[0]] else []) + InScopeOnly(netloc, found[1..])
  }
}
