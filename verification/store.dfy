/** The page store (`DatabaseManager`): a `pages` table keyed by URL, kept in
    insertion (row id) order, and an append-only `links` table of
    (source, target) rows. */
module Store {
  import opened Scope

  datatype Page = Page(url: string, title: Option<string>, content: string)

  datatype Link = Link(source: string, target: string)

  /** The contents of both tables. */
  datatype Tables = Tables(pages: seq<Page>, links: seq<Link>)

  /** The URLs of the page rows. */
  function Urls(pages: seq<Page>): set<string>
  {
    set p | p in pages :: p.url
  }

  /** The `url` column is unique. */
  ghost predicate UniqueUrls(pages: seq<Page>)
  {
    forall i, j :: 0 <= i < j < |pages| ==> pages[i].url != pages[j].url
  }

  /** The targets of the link rows. */
  function Targets(links: seq<Link>): set<string>
  {
    set l | l in links :: l.target
  }

  /** `SELECT url FROM pages`: the url column. SQL fixes no order for this
      query; the model takes row order. The crawler uses only the length of
      the result and its set of elements, which do not depend on the order. */
  function UrlColumn(pages: seq<Page>): (urls: seq<string>)
    ensures |urls| == |pages|
    ensures forall i :: 0 <= i < |pages| ==> urls[i] == pages[i].url
    ensures Elems(urls) == Urls(pages)
  {
    var urls := seq(|pages|, i requires 0 <= i < |pages| => pages[i].url);
    assert forall p :: p in pages ==> p.url in urls by {
      forall p | p in pages ensures p.url in urls {
        var i :| 0 <= i < |pages| && pages[i] == p;
        assert urls[i] == p.url;
      }
    }
    urls
  }

  /** The rows `save_page` appends for the links found on `url`, one per
      link, in the order found and unfiltered. */
  function LinkRows(url: string, found: seq<string>): (rows: seq<Link>)
    ensures Targets(rows) == Elems(found)
    ensures forall l :: l in rows ==> l.source == url
  {
    var rows := seq(|found|, i requires 0 <= i < |found| => Link(url, found[i]));
    assert forall u :: u in found ==> u in Targets(rows) by {
      forall u | u in found ensures u in Targets(rows) {
        var i :| 0 <= i < |found| && found[i] == u;
        assert rows[i] in rows;
      }
    }
    rows
  }

  /** The targets of appended rows are the old targets plus theirs. */
  lemma TargetsAppend(a: seq<Link>, b: seq<Link>)
    ensures Targets(a + b) == Targets(a) + Targets(b)
  {
  }

  /** The rebuild query `SELECT DISTINCT target_url FROM links WHERE
      target_url NOT IN (SELECT url FROM pages)`, with `done` the page URLs.
      SQL leaves the order of a DISTINCT result open; this model fixes it to
      the order in which each target first appears among the link rows. */
  function Pending(done: set<string>, links: seq<Link>): (targets: seq<string>)
    ensures NoDup(targets)
    ensures forall u :: u in targets <==> u in Targets(links) && u !in done
    decreases |links|
  {
    if links == [] then []
    else
      var last := links[|links| - 1];
      var earlier := Pending(done, links[..|links| - 1]);
      assert links == links[..|links| - 1] + [last];
      assert Targets(links) == Targets(links[..|links| - 1]) + {last.target};
      if last.target in done || last.target in earlier then earlier
      else earlier + [last.target]
  }

  /** What a `save_page` call leaves in the tables. `writeFails` stands for
      an exception raised by the database engine: `save_page` swallows it,
      and the model treats the call as all-or-nothing, so nothing is written
      (SQLite itself may keep the uncommitted inserts; see README, "Left
      out"). Otherwise the page row is inserted unless its URL is already
      present (INSERT OR IGNORE), and one link row per found link is
      appended. */
  function Save(t: Tables, url: string, title: Option<string>, content: string,
                found: seq<string>, writeFails: bool): (r: Tables)
    ensures writeFails ==> r == t
    ensures t.pages <= r.pages && t.links <= r.links
    ensures !writeFails ==> Urls(r.pages) == Urls(t.pages) + {url}
    ensures !writeFails && url !in Urls(t.pages) ==> r.pages == t.pages + [Page(url, title, content)]
    ensures url in Urls(t.pages) ==> r.pages == t.pages
    ensures !writeFails ==> r.links == t.links + LinkRows(url, found)
    ensures UniqueUrls(t.pages) ==> UniqueUrls(r.pages)
  {
    if writeFails then t
    else
      var pages := if url in Urls(t.pages) then t.pages else t.pages + [Page(url, title, content)];
      assert Urls(t.pages + [Page(url, title, content)]) == Urls(t.pages) + {url};
      Tables(pages, t.links + LinkRows(url, found))
  }

  /** The store as the crawler holds it. */
  class PageStore {
    var pages: seq<Page>
    var links: seq<Link>

    ghost predicate Valid()
      reads this
    {
      UniqueUrls(pages)
    }

    function Contents(): Tables
      reads this
    {
      Tables(pages, links)
    }

    /** Opens the store with the tables an earlier run persisted. */
    constructor Open(persisted: Tables)
      requires UniqueUrls(persisted.pages)
      ensures Valid() && Contents() == persisted
    {
      pages := persisted.pages;
      links := persisted.links;
    }

    /** `DatabaseManager.save_page`. */
    method SavePage(url: string, title: Option<string>, content: string,
                    found: seq<string>, writeFails: bool)
      requires Valid()
      modifies this
      ensures Valid()
      ensures Contents() == Save(old(Contents()), url, title, content, found, writeFails)
    {
      if writeFails {
        return;
      }
      if url !in Urls(pages) {
        pages := pages + [Page(url, title, content)];
      }
      var rows := LinkRows(url, found);
      if rows != [] {
        links := links + rows;
      }
    }
  }
}
