/** Properties of the crawl engine that relate several steps, or a run and
    the rebuild that follows it. */
module CrawlProperties {
  import opened Scope
  import opened Store
  import opened Frontier

  /** The head of a duplicate-free sequence is not in its tail, which is
      duplicate-free too. */
  lemma NoDupTail(s: seq<string>)
    requires NoDup(s) && s != []
    ensures s[0] !in s[1..] && NoDup(s[1..])
  {
  }

  /** One unfolding of the trace of popped URLs. */
  lemma VisitsUnfold(st: CrawlState, env: Env)
    requires !Halted(st, env.maxPages)
    ensures Visits(st, env) == [st.queue[0]] + Visits(Step(st, env), env)
  {
  }

  /** A sequence without members is empty. */
  lemma EmptyWithoutMembers(s: seq<string>)
    ensures (forall u :: u !in s) ==> s == []
  {
    assert s != [] ==> s[0] in s;
  }

  /** The rebuild's `link not in self.seen` test never rejects anything: the
      query result is duplicate-free and holds no stored page, so the queue
      is the in-scope part of the query result, in the query's order. */
  lemma {:induction false} FreshOfUnseen(netloc: string -> Option<string>, seen: set<string>, found: seq<string>)
    requires NoDup(found) && Elems(found) !! seen
    ensures Fresh(netloc, seen, found) == InScopeOnly(netloc, found)
    decreases |found|
  {
    if found != [] {
      var u := found[0];
      NoDupTail(found);
      if InScope(netloc, u) {
        FreshOfUnseen(netloc, seen + {u}, found[1..]);
      } else {
        FreshOfUnseen(netloc, seen, found[1..]);
      }
    }
  }

  /** The rebuilt queue in order: the in-scope pending link targets as the
      query returns them, or the start URL alone on a first run. */
  lemma RebuildQueueOrder(t: Tables, start: string, netloc: string -> Option<string>)
    ensures var pending := InScopeOnly(netloc, Pending(Urls(t.pages), t.links));
            Rebuild(t, start, netloc).queue ==
              if pending == [] && t.pages == [] then [start] else pending
  {
    var done := Urls(t.pages);
    var p := Pending(done, t.links);
    assert Elems(p) !! done;
    FreshOfUnseen(netloc, done, p);
  }

  /** One iteration keeps the frontier invariant; the popped URL stays in
      `seen` and is not in the queue afterwards. */
  lemma StepConsistent(st: CrawlState, env: Env)
    requires st.queue != [] && Consistent(st, env.netloc)
    ensures Consistent(Step(st, env), env.netloc)
    ensures st.queue[0] in Step(st, env).seen && st.queue[0] !in Step(st, env).queue
  {
    var r := Step(st, env);
    var n := |st.queue| - 1;
    var rest, added := st.queue[1..], r.queue[n..];
    assert r.queue == rest + added;
    assert st.queue == [st.queue[0]] + rest;
    NoDupTail(st.queue);
    assert NoDup(r.queue) by {
      forall i, j | 0 <= i < j < |r.queue| ensures r.queue[i] != r.queue[j] {
        if j < n {
          assert r.queue[i] == st.queue[i + 1] && r.queue[j] == st.queue[j + 1];
        } else if i >= n {
          assert r.queue[i] == added[i - n] && r.queue[j] == added[j - n];
        } else {
          assert r.queue[i] in st.seen;
          assert r.queue[j] == added[j - n];
        }
      }
    }
    match env.fetch(st.queue[0])
    case Ok(title, text, found) =>
      var url := st.queue[0];
      FreshProperties(env.netloc, st.seen, found);
      forall u | u in Targets(r.tables.links) && InScope(env.netloc, u) ensures u in r.seen {
        if !env.writeFails(url) {
          TargetsAppend(st.tables.links, LinkRows(url, found));
        }
      }
    case _ =>
  }

  /** The frontier invariant holds when the loop ends. */
  lemma {:induction false} CrawlConsistent(st: CrawlState, env: Env)
    requires Consistent(st, env.netloc)
    ensures Consistent(Crawl(st, env), env.netloc)
    decreases env.maxPages - st.pageCount, |st.queue|
  {
    if !Halted(st, env.maxPages) {
      StepConsistent(st, env);
      CrawlConsistent(Step(st, env), env);
    }
  }

  /** No URL is popped twice in a run, and every URL popped was queued at the
      start or had not been seen then. */
  lemma {:induction false} VisitsNoDup(st: CrawlState, env: Env)
    requires Consistent(st, env.netloc)
    ensures NoDup(Visits(st, env))
    ensures forall u :: u in Visits(st, env) ==> u in st.queue || u !in st.seen
    decreases env.maxPages - st.pageCount, |st.queue|
  {
    if !Halted(st, env.maxPages) {
      var next := Step(st, env);
      StepConsistent(st, env);
      VisitsNoDup(next, env);
      var v := Visits(st, env);
      var later := Visits(next, env);
      assert v == [st.queue[0]] + later;
      assert st.queue[0] !in later;
      forall u | u in later ensures u in st.queue || u !in st.seen {
        if u in next.queue && u !in st.queue[1..] {
          var n := |st.queue| - 1;
          assert next.queue == st.queue[1..] + next.queue[n..];
          assert u in next.queue[n..];
        }
      }
    }
  }

  /** FIFO: while the budget allows, the URLs queued now are popped first and
      in queue order, before anything discovered later. */
  lemma {:induction false} VisitsFifo(st: CrawlState, env: Env, prefix: seq<string>)
    requires prefix <= st.queue
    requires st.pageCount + |prefix| <= env.maxPages
    ensures prefix <= Visits(st, env)
    decreases |prefix|
  {
    if prefix != [] {
      var next := Step(st, env);
      VisitsFifo(next, env, prefix[1..]);
      assert Visits(st, env) == [st.queue[0]] + Visits(next, env);
    }
  }

  /** `page_count` grows by exactly the number of popped URLs whose fetch was
      `Ok`, whether or not the store write succeeded. */
  lemma {:induction false} CrawlCountsOkVisits(st: CrawlState, env: Env)
    ensures Crawl(st, env).pageCount == st.pageCount + OkCount(Visits(st, env), env.fetch)
    decreases env.maxPages - st.pageCount, |st.queue|
  {
    if !Halted(st, env.maxPages) {
      var next := Step(st, env);
      CrawlCountsOkVisits(next, env);
      var v := Visits(st, env);
      assert v == [st.queue[0]] + Visits(next, env);
      assert v[1..] == Visits(next, env);
    }
  }

  /** Every URL in `seen` when the loop ends is a stored page, still queued,
      popped during the run, or in `extra`. */
  lemma {:induction false} CrawlAccountsForSeen(st: CrawlState, env: Env, extra: set<string>)
    requires st.seen <= Urls(st.tables.pages) + Elems(st.queue) + extra
    ensures var r := Crawl(st, env);
            r.seen <= Urls(r.tables.pages) + Elems(r.queue) + extra + Elems(Visits(st, env))
    decreases env.maxPages - st.pageCount, |st.queue|
  {
    if !Halted(st, env.maxPages) {
      var next := Step(st, env);
      var n := |st.queue| - 1;
      assert next.queue == st.queue[1..] + next.queue[n..];
      assert st.queue == [st.queue[0]] + st.queue[1..];
      assert Urls(st.tables.pages) <= Urls(next.tables.pages);
      assert next.seen <= Urls(next.tables.pages) + Elems(next.queue) + (extra + {st.queue[0]});
      CrawlAccountsForSeen(next, env, extra + {st.queue[0]});
      assert Visits(st, env) == [st.queue[0]] + Visits(next, env);
    }
  }

  /** A popped URL whose fetch was `Ok` and whose write succeeded is a stored
      page when the loop ends. */
  lemma {:induction false} CrawlSavesCleanVisits(st: CrawlState, env: Env)
    ensures forall u :: u in Visits(st, env) && env.fetch(u).Ok? && !env.writeFails(u) ==>
              u in Urls(Crawl(st, env).tables.pages)
    decreases env.maxPages - st.pageCount, |st.queue|
  {
    if !Halted(st, env.maxPages) {
      var next := Step(st, env);
      CrawlSavesCleanVisits(next, env);
      var fin := Crawl(next, env);
      assert Urls(next.tables.pages) <= Urls(fin.tables.pages);
      assert Visits(st, env) == [st.queue[0]] + Visits(next, env);
    }
  }

  /** Conversely, a page stored when the loop ends was stored at the start, or
      was popped with an `Ok` fetch and a successful write. This rests on the
      all-or-nothing write of `Save`: a page whose write failed is absent
      afterwards only because a failed `save_page` leaves nothing pending
      for a later commit. */
  lemma {:induction false} CrawlStoresOnlyCleanVisits(st: CrawlState, env: Env)
    ensures forall u :: u in Urls(Crawl(st, env).tables.pages) ==>
              || u in Urls(st.tables.pages)
              || (u in Visits(st, env) && env.fetch(u).Ok? && !env.writeFails(u))
    decreases env.maxPages - st.pageCount, |st.queue|
  {
    if !Halted(st, env.maxPages) {
      var next := Step(st, env);
      CrawlStoresOnlyCleanVisits(next, env);
      assert Visits(st, env) == [st.queue[0]] + Visits(next, env);
      assert Urls(next.tables.pages) <= Urls(st.tables.pages) + {st.queue[0]};
    }
  }

  /** Resuming after a run that emptied its queue: every URL the next rebuild
      would queue (apart from a first-run seed) was popped in that run and
      never stored, because its fetch failed or its write did. */
  lemma ResumeRequeuesOnlyUnsaved(st: CrawlState, env: Env)
    requires Consistent(st, env.netloc)
    requires st.seen <= Urls(st.tables.pages) + Elems(st.queue)
    requires Crawl(st, env).queue == []
    ensures forall u :: Awaiting(Crawl(st, env).tables, env.netloc, u) ==> u in Visits(st, env)
  {
    CrawlConsistent(st, env);
    CrawlAccountsForSeen(st, env, {});
  }

  /** Resume idempotence: when the queue emptied and every popped URL
      fetched `Ok` and was stored, the next rebuild queues nothing and loads
      every stored page as seen, so no page is fetched again. A rebuilt
      frontier meets the first two requirements (Rebuild's postconditions). */
  lemma ResumeAfterCleanRun(st: CrawlState, env: Env, nextStart: string)
    requires Consistent(st, env.netloc)
    requires st.seen <= Urls(st.tables.pages) + Elems(st.queue)
    requires Crawl(st, env).queue == []
    requires forall u :: u in Visits(st, env) ==> env.fetch(u).Ok? && !env.writeFails(u)
    ensures var fin := Crawl(st, env);
            var again := Rebuild(fin.tables, nextStart, env.netloc);
            fin.tables.pages != [] ==> again.queue == [] && again.seen == Urls(fin.tables.pages)
  {
    var fin := Crawl(st, env);
    var again := Rebuild(fin.tables, nextStart, env.netloc);
    ResumeRequeuesOnlyUnsaved(st, env);
    CrawlSavesCleanVisits(st, env);
    forall u ensures !Awaiting(fin.tables, env.netloc, u) {
      if u in Visits(st, env) {
        assert u in Urls(fin.tables.pages);
      }
    }
    EmptyWithoutMembers(again.queue);
  }

  /** Rebuilding from a store with pages but nothing pending leaves the queue
      empty, and the loop then does nothing. */
  lemma IdleResume(t: Tables, start: string, env: Env)
    requires t.pages != []
    requires forall u :: u in Targets(t.links) && u !in Urls(t.pages) ==> !InScope(env.netloc, u)
    ensures Rebuild(t, start, env.netloc).queue == []
    ensures Visits(Rebuild(t, start, env.netloc), env) == []
    ensures Crawl(Rebuild(t, start, env.netloc), env) == Rebuild(t, start, env.netloc)
  {
    var st := Rebuild(t, start, env.netloc);
    assert forall u :: !Awaiting(t, env.netloc, u);
    EmptyWithoutMembers(st.queue);
  }

  /** A links to B and C, B links to D, C and D link nowhere, every fetch
      succeeds, B, C and D are in scope, and the budget covers four pages. */
  ghost predicate SmallWeb(env: Env)
  {
    && env.maxPages >= 4
    && env.fetch("A").Ok? && env.fetch("A").links == ["B", "C"]
    && env.fetch("B").Ok? && env.fetch("B").links == ["D"]
    && env.fetch("C").Ok? && env.fetch("C").links == []
    && env.fetch("D").Ok? && env.fetch("D").links == []
    && InScope(env.netloc, "B") && InScope(env.netloc, "C") && InScope(env.netloc, "D")
  }

  lemma SmallWebStepA(env: Env, st: CrawlState)
    requires SmallWeb(env)
    requires st.queue == ["A"] && st.seen == {"A"} && st.pageCount == 0
    ensures Step(st, env).queue == ["B", "C"]
    ensures Step(st, env).seen == {"A", "B", "C"}
    ensures Step(st, env).pageCount == 1
  {
    var found := env.fetch("A").links;
    assert found[1..] == ["C"];
    assert Fresh(env.netloc, {"A", "B"}, ["C"]) == ["C"];
    assert Fresh(env.netloc, {"A"}, found) == ["B", "C"];
  }

  lemma SmallWebStepB(env: Env, st: CrawlState)
    requires SmallWeb(env)
    requires st.queue == ["B", "C"] && st.seen == {"A", "B", "C"} && st.pageCount == 1
    ensures Step(st, env).queue == ["C", "D"]
    ensures Step(st, env).seen == {"A", "B", "C", "D"}
    ensures Step(st, env).pageCount == 2
  {
    assert Fresh(env.netloc, {"A", "B", "C"}, ["D"]) == ["D"];
  }

  lemma SmallWebStepC(env: Env, st: CrawlState)
    requires SmallWeb(env)
    requires st.queue == ["C", "D"] && st.seen == {"A", "B", "C", "D"} && st.pageCount == 2
    ensures Step(st, env).queue == ["D"]
    ensures Step(st, env).seen == {"A", "B", "C", "D"}
    ensures Step(st, env).pageCount == 3
  {
  }

  lemma SmallWebStepD(env: Env, st: CrawlState)
    requires SmallWeb(env)
    requires st.queue == ["D"] && st.seen == {"A", "B", "C", "D"} && st.pageCount == 3
    ensures Step(st, env).queue == []
    ensures Step(st, env).seen == {"A", "B", "C", "D"}
    ensures Step(st, env).pageCount == 4
  {
  }

  lemma SmallWebFromD(env: Env, st: CrawlState)
    requires SmallWeb(env)
    requires st.queue == ["D"] && st.seen == {"A", "B", "C", "D"} && st.pageCount == 3
    ensures Visits(st, env) == ["D"]
  {
    SmallWebStepD(env, st);
    VisitsUnfold(st, env);
  }

  lemma SmallWebFromC(env: Env, st: CrawlState)
    requires SmallWeb(env)
    requires st.queue == ["C", "D"] && st.seen == {"A", "B", "C", "D"} && st.pageCount == 2
    ensures Visits(st, env) == ["C", "D"]
  {
    SmallWebStepC(env, st);
    SmallWebFromD(env, Step(st, env));
    VisitsUnfold(st, env);
  }

  lemma SmallWebFromB(env: Env, st: CrawlState)
    requires SmallWeb(env)
    requires st.queue == ["B", "C"] && st.seen == {"A", "B", "C"} && st.pageCount == 1
    ensures Visits(st, env) == ["B", "C", "D"]
  {
    SmallWebStepB(env, st);
    SmallWebFromC(env, Step(st, env));
    VisitsUnfold(st, env);
  }

  lemma SmallWebFromA(env: Env, st: CrawlState)
    requires SmallWeb(env)
    requires st.queue == ["A"] && st.seen == {"A"} && st.pageCount == 0
    ensures Visits(st, env) == ["A", "B", "C", "D"]
  {
    SmallWebStepA(env, st);
    SmallWebFromB(env, Step(st, env));
    VisitsUnfold(st, env);
    PrependToBCD("A", Visits(Step(st, env), env));
  }

  /** Kept apart so that the literal concatenation is checked without the
      crawl facts in scope. */
  lemma PrependToBCD(u: string, rest: seq<string>)
    requires rest == ["B", "C", "D"]
    ensures [u] + rest == [u, "B", "C", "D"]
  {
  }

  /** Rebuilding from an empty store seeds the queue with the start URL. */
  lemma EmptyStoreBootstrap(start: string, netloc: string -> Option<string>)
    ensures Rebuild(Tables([], []), start, netloc) == CrawlState([start], {start}, 0, Tables([], []))
  {
  }

  /** FIFO order on a small web: from an empty store with start URL A, where
      A links to B and C and B links to D, the crawl pops A, B, C, D (breadth
      first, not A, B, D, C). */
  lemma BreadthFirstExample(env: Env)
    requires SmallWeb(env)
    ensures Rebuild(Tables([], []), "A", env.netloc).queue == ["A"]
    ensures Visits(Rebuild(Tables([], []), "A", env.netloc), env) == ["A", "B", "C", "D"]
  {
    EmptyStoreBootstrap("A", env.netloc);
    SmallWebFromA(env, Rebuild(Tables([], []), "A", env.netloc));
  }
}
