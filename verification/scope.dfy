/** Link classification: the domain filter shared by the frontier rebuild and
    `Crawler.is_valid_link`, plus the small sequence vocabulary the crawler
    model uses for URLs. */
module Scope {

  datatype Option<+T> = None | Some(value: T)

  /** The text every crawled host name must contain. */
  const Domain: string := "iyte.edu.tr"

  /** The set of URLs occurring in `s`. */
  function Elems(s: seq<string>): set<string>
  {
    set u | u in s
  }

  /** Appending one URL adds exactly that URL to the set. */
  lemma ElemsSnoc(s: seq<string>, u: string)
    ensures Elems(s + [u]) == Elems(s) + {u}
  {
  }

  /** No URL occurs twice in `s`. */
  ghost predicate NoDup(s: seq<string>)
  {
    forall i, j :: 0 <= i < j < |s| ==> s[i] != s[j]
  }

  /** `sub` occurs in `s` starting at position `i`. */
  ghost predicate OccursAt(sub: string, s: string, i: int)
  {
    0 <= i && i + |sub| <= |s| && s[i..i + |sub|] == sub
  }

  /** `sub` occurs as a contiguous piece of `s` (Python's `sub in s`). */
  ghost predicate Occurs(sub: string, s: string)
  {
    exists i :: OccursAt(sub, s, i)
  }

  /** Substring test by a left-to-right scan. */
  function Contains(s: string, sub: string): (r: bool)
    ensures r <==> Occurs(sub, s)
    decreases |s|
  {
    if sub <= s then
      assert OccursAt(sub, s, 0);
      true
    else if |s| <= |sub| then
      assert !Occurs(sub, s);
      false
    else
      var r := Contains(s[1..], sub);
      assert Occurs(sub, s) <==> Occurs(sub, s[1..]) by {
        if Occurs(sub, s) {
          var i :| OccursAt(sub, s, i);
          assert i != 0;
          assert s[1..][i - 1..i - 1 + |sub|] == s[i..i + |sub|];
          assert OccursAt(sub, s[1..], i - 1);
        }
        if Occurs(sub, s[1..]) {
          var i :| OccursAt(sub, s[1..], i);
          assert s[i + 1..i + 1 + |sub|] == s[1..][i..i + |sub|];
          assert OccursAt(sub, s, i + 1);
        }
      }
      r
  }

  /** The URL's host parses and contains `Domain`. `netloc` stands for
      `urlparse(url).netloc`; `None` means that parsing raised. */
  predicate InScope(netloc: string -> Option<string>, url: string)
  {
    match netloc(url)
    case None => false
    case Some(host) => Contains(host, Domain)
  }

  /** `Crawler.is_valid_link`: in scope and not yet seen. A URL whose
      parsing raises (`netloc(url).None?`) is rejected rather than
      propagating the error, as the `netloc(url).Some?` conjunct says. */
  function IsValidLink(netloc: string -> Option<string>, seen: set<string>, url: string): (r: bool)
    ensures r <==> url !in seen && netloc(url).Some? && Occurs(Domain, netloc(url).value)
  {
    InScope(netloc, url) && url !in seen
  }
}
