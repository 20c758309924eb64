/** `Crawler` from `scrapermain.py` as a class: its fields change in place
    while `__init__` rebuilds the frontier and while `run` crawls. Each
    method is proved to compute the matching function of Frontier. */
module CrawlEngine {
  import opened Scope
  import opened Store
  import opened Frontier
  import CrawlProperties

  /** The default page budget of `Crawler.__init__`. */
  const DefaultMaxPages: int := 100000

  /** One step of the admission fold over `xs` from position `i`: the link
      there is taken exactly when `is_valid_link` accepts it, and the fold
      then goes on with the grown `seen`. */
  lemma FreshStep(netloc: string -> Option<string>, seen0: set<string>, seen: set<string>,
                  taken: seq<string>, xs: seq<string>, i: int)
    requires 0 <= i < |xs|
    requires taken + Fresh(netloc, seen, xs[i..]) == Fresh(netloc, seen0, xs)
    ensures IsValidLink(netloc, seen, xs[i]) ==>
              (taken + [xs[i]]) + Fresh(netloc, seen + {xs[i]}, xs[i + 1..]) == Fresh(netloc, seen0, xs)
    ensures !IsValidLink(netloc, seen, xs[i]) ==>
              taken + Fresh(netloc, seen, xs[i + 1..]) == Fresh(netloc, seen0, xs)
  {
  }

  /** The loop of `Crawler.__init__` that adds every stored page URL to
      `seen`. */
  method MarkVisited(visited: seq<string>) returns (done: set<string>)
    ensures done == Elems(visited)
  {
    done := {};
    var i := 0;
    while i < |visited|
      invariant 0 <= i <= |visited|
      invariant done == Elems(visited[..i])
    {
      done := done + {visited[i]};
      i := i + 1;
    }
    assert visited[..i] == visited;
  }

  class Crawler {
    var queue: seq<string>
    var seen: set<string>
    var pageCount: int
    const maxPages: int
    /** `urlparse(url).netloc`, `None` where parsing raises. */
    const netloc: string -> Option<string>
    const db: PageStore

    /** The crawler's fields together with the store's tables. */
    function State(): CrawlState
      reads this, db
    {
      CrawlState(queue, seen, pageCount, db.Contents())
    }

    ghost predicate Valid()
      reads this, db
    {
      db.Valid() && Consistent(State(), netloc)
    }

    /** The rebuild loop of `Crawler.__init__` over the pending targets:
        each in-scope target not yet seen is queued and marked seen. The host
        is parsed outside any `try`, so every target must parse. */
    method AdmitPending(pending: seq<string>) returns (q: seq<string>, s: set<string>)
      requires forall u :: u in pending ==> netloc(u).Some?
      ensures q == queue + Fresh(netloc, seen, pending)
      ensures s == seen + Elems(Fresh(netloc, seen, pending))
    {
      ghost var taken: seq<string> := [];
      q, s := queue, seen;
      ghost var q0, s0 := q, s;
      var j := 0;
      while j < |pending|
        invariant 0 <= j <= |pending|
        invariant q == q0 + taken && s == s0 + Elems(taken)
        invariant taken + Fresh(netloc, s, pending[j..]) == Fresh(netloc, s0, pending)
      {
        var link := pending[j];
        FreshStep(netloc, s0, s, taken, pending, j);
        if Contains(netloc(link).value, Domain) && link !in s {
          q := q + [link];
          s := s + {link};
          ElemsSnoc(taken, link);
          taken := taken + [link];
        }
        j := j + 1;
      }
      assert pending[j..] == [];
    }

    /** The link loop of `Crawler.run`: each link `is_valid_link` accepts is
        marked seen and queued. */
    method AdmitLinks(links: seq<string>) returns (q: seq<string>, s: set<string>)
      ensures q == queue + Fresh(netloc, seen, links)
      ensures s == seen + Elems(Fresh(netloc, seen, links))
    {
      ghost var taken: seq<string> := [];
      q, s := queue, seen;
      ghost var q0, s0 := q, s;
      var i := 0;
      while i < |links|
        invariant 0 <= i <= |links|
        invariant q == q0 + taken && s == s0 + Elems(taken)
        invariant taken + Fresh(netloc, s, links[i..]) == Fresh(netloc, s0, links)
      {
        var link := links[i];
        FreshStep(netloc, s0, s, taken, links, i);
        if IsValidLink(netloc, s, link) {
          q := q + [link];
          s := s + {link};
          ElemsSnoc(taken, link);
          taken := taken + [link];
        }
        i := i + 1;
      }
      assert links[i..] == [];
    }

    /** `Crawler.__init__`: opens the store with the tables `persisted`,
        marks every stored page as seen, queues the pending in-scope link
        targets, and seeds `startUrl` only when nothing is queued and no page
        is stored. The host of every pending target is parsed outside any
        `try`, so a target whose parsing raises would abort the constructor;
        the precondition excludes that. */
    constructor (startUrl: string, maxPages: int := DefaultMaxPages, netloc: string -> Option<string>, persisted: Tables)
      requires UniqueUrls(persisted.pages)
      requires forall l :: l in persisted.links && l.target !in Urls(persisted.pages) ==> netloc(l.target).Some?
      ensures this.maxPages == maxPages && this.netloc == netloc
      ensures fresh(db)
      ensures State() == Rebuild(persisted, startUrl, netloc)
      ensures Valid()
    {
      this.maxPages := maxPages;
      this.netloc := netloc;
      queue := [];
      seen := {};
      pageCount := 0;
      db := new PageStore.Open(persisted);
      new;
      var visited := UrlColumn(db.pages);
      pageCount := |visited|;
      seen := MarkVisited(visited);
      var pending := Pending(seen, db.links);
      queue, seen := AdmitPending(pending);
      if queue == [] && pageCount == 0 {
        queue := queue + [startUrl];
        seen := seen + {startUrl};
      }
    }

    /** `Crawler.run`: the crawl loop. `fetch` stands for the request and the
        parser, `writeFails` for a database error inside `save_page`. */
    method Run(fetch: string -> Outcome, writeFails: string -> bool)
      requires Valid()
      modifies this, db
      ensures Valid()
      ensures State() == Crawl(old(State()), Env(maxPages, netloc, fetch, writeFails))
    {
      ghost var env := Env(maxPages, netloc, fetch, writeFails);
      while queue != [] && pageCount < maxPages
        invariant Valid()
        invariant Crawl(State(), env) == Crawl(old(State()), env)
        decreases maxPages - pageCount, |queue|
      {
        ghost var before := State();
        var url := queue[0];
        queue := queue[1..];
        match fetch(url) {
          case Ok(title, text, links) =>
            db.SavePage(url, title, text, links, writeFails(url));
            pageCount := pageCount + 1;
            queue, seen := AdmitLinks(links);
          case _ =>
        }
        assert State() == Step(before, env);
        CrawlProperties.StepConsistent(before, env);
      }
    }
  }
}
