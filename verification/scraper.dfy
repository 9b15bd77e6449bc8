/** `YahooMovie.run`: fetch listing pages 1, 2, ... up to the requested
    count, stop at the first empty listing, and turn every item into a
    `Movie`. Fetching is abstract: the site is the sequence of listings its
    pages show, and a page past the end shows an empty listing. */
module Scraper {
  import opened Results
  import opened Movies
  import opened MovieTags

  /** The listings of pages 1, 2, ..., |site|. */
  type Site = seq<seq<Item>>

  /** The items on page n of the listing. */
  function Listing(site: Site, n: int): seq<Item>
  {
    if 1 <= n <= |site| then site[n - 1] else []
  }

  /** `max(page, 0)`: how many pages `range(1, page + 1)` offers. */
  function Offered(page: int): nat
  {
    if page < 0 then 0 else page
  }

  /** The inner `for li in li_tag` loop: one movie per item in document
      order, or the first item's exception. */
  function ExtractAll(items: seq<Item>, read: Item -> Result<Movie>): Result<seq<Movie>>
  {
    if items == [] then Ok([])
    else
      var m :- read(items[0]);
      var rest :- ExtractAll(items[1..], read);
      Ok([m] + rest)
  }

  /** The item loop succeeds exactly when every item converts, and then
      holds each item's movie at the item's position; otherwise it raises
      what the first failing item raises. */
  lemma {:induction false} ExtractAllSpec(items: seq<Item>, read: Item -> Result<Movie>)
    ensures ExtractAll(items, read).Ok? <==> forall i :: 0 <= i < |items| ==> read(items[i]).Ok?
    ensures ExtractAll(items, read).Ok? ==>
              && |ExtractAll(items, read).value| == |items|
              && forall i :: 0 <= i < |items| ==> read(items[i]) == Ok(ExtractAll(items, read).value[i])
    ensures ExtractAll(items, read).Err? ==>
              exists i :: 0 <= i < |items| && read(items[i]) == Err(ExtractAll(items, read).error)
                          && forall j :: 0 <= j < i ==> read(items[j]).Ok?
  {
    if items != [] {
      ExtractAllSpec(items[1..], read);
      if read(items[0]).Err? {
        assert read(items[0]) == Err(ExtractAll(items, read).error);
      } else if ExtractAll(items[1..], read).Err? {
        var i :| 0 <= i < |items[1..]| && read(items[1..][i]) == Err(ExtractAll(items[1..], read).error)
                 && forall j :: 0 <= j < i ==> read(items[1..][j]).Ok?;
        assert read(items[i + 1]) == Err(ExtractAll(items, read).error);
        assert forall j :: 0 <= j < i + 1 ==> read(items[j]).Ok? by {
          forall j | 0 <= j < i + 1 ensures read(items[j]).Ok? {
            if j > 0 {
              assert items[j] == items[1..][j - 1];
            }
          }
        }
      } else {
        assert forall i :: 1 <= i < |items| ==> items[i] == items[1..][i - 1];
      }
    }
  }

  /** What one call of `run` did: the page numbers it fetched, in order, and
      what it returned or raised. */
  datatype Crawl = Crawl(fetched: seq<int>, result: Result<seq<Movie>>)

  /** The `for i in range(...)` loop from page i on. */
  function CrawlFrom(site: Site, i: int, page: int, read: Item -> Result<Movie>): (c: Crawl)
    ensures forall k :: 0 <= k < |c.fetched| ==> c.fetched[k] == i + k
    ensures i > page ==> c == Crawl([], Ok([]))
    ensures i <= page ==> 1 <= |c.fetched| <= page - i + 1
    ensures forall k :: 0 <= k < |c.fetched| - 1 ==> Listing(site, c.fetched[k]) != []
    decreases page - i
  {
    if i > page then Crawl([], Ok([]))
    else
      var items := Listing(site, i);
      if items == [] then Crawl([i], Ok([]))
      else
        match ExtractAll(items, read)
        case Err(e) => Crawl([i], Err(e))
        case Ok(movies) =>
          var rest := CrawlFrom(site, i + 1, page, read);
          Crawl([i] + rest.fetched,
                match rest.result
                case Ok(more) => Ok(movies + more)
                case Err(e) => Err(e))
  }

  /** `YahooMovie(url, page).run()` against `site`. */
  function Run(site: Site, page: int): (c: Crawl)
    ensures forall k :: 0 <= k < |c.fetched| ==> c.fetched[k] == k + 1
    ensures |c.fetched| <= Offered(page)
    ensures page <= 0 ==> c == Crawl([], Ok([]))
    ensures page >= 1 ==> |c.fetched| >= 1
    ensures forall n :: 1 <= n < |c.fetched| ==> Listing(site, n) != []
  {
    var c := CrawlFrom(site, 1, page, ToMovie);
    assert forall n :: 1 <= n < |c.fetched| ==> Listing(site, n) != [] by {
      forall n | 1 <= n < |c.fetched| ensures Listing(site, n) != [] {
        assert c.fetched[n - 1] == n;
      }
    }
    c
  }

  /** n pages contribute movies: pages 1..n all have items, and either every
      offered page is among them or page n + 1 is empty. */
  ghost predicate StopsAfter(site: Site, page: int, n: nat)
  {
    && n <= Offered(page)
    && (forall k :: 1 <= k <= n ==> Listing(site, k) != [])
    && (n == Offered(page) || Listing(site, n + 1) == [])
  }

  /** The items of pages i..n, concatenated in page order. */
  function Gather(site: Site, i: int, n: int): seq<Item>
    decreases n - i
  {
    if i > n then [] else Listing(site, i) + Gather(site, i + 1, n)
  }

  /** The item loop over two lists is the loop over the first, then the
      loop over the second, stopping at the first exception. */
  lemma {:induction false} ExtractAllAppend(a: seq<Item>, b: seq<Item>, read: Item -> Result<Movie>)
    ensures ExtractAll(a + b, read) ==
              match ExtractAll(a, read)
              case Err(e) => Err(e)
              case Ok(x) =>
                match ExtractAll(b, read)
                case Err(e) => Err(e)
                case Ok(y) => Ok(x + y)
  {
    if a == [] {
      assert a + b == b;
      if ExtractAll(b, read).Ok? {
        assert [] + ExtractAll(b, read).value == ExtractAll(b, read).value;
      }
    } else {
      assert (a + b)[0] == a[0] && (a + b)[1..] == a[1..] + b;
      ExtractAllAppend(a[1..], b, read);
      match ExtractAll(a[1..], read) {
        case Err(e) =>
        case Ok(x) =>
          match ExtractAll(b, read) {
            case Err(e) =>
            case Ok(y) =>
              if read(a[0]).Ok? {
                assert [read(a[0]).value] + (x + y) == ([read(a[0]).value] + x) + y;
              }
          }
      }
    }
  }

  /** From page i on, the loop returns what the item loop returns over the
      concatenation of pages i..n, and fetches page n + 1 exactly when it is
      offered and nothing failed before it. */
  lemma {:induction false} CrawlFromGathers(site: Site, page: int, n: nat, i: int, read: Item -> Result<Movie>)
    requires StopsAfter(site, page, n) && 1 <= i <= n + 1
    ensures CrawlFrom(site, i, page, read).result == ExtractAll(Gather(site, i, n), read)
    ensures |CrawlFrom(site, i, page, read).fetched| <= n + 1 - i + (if n < Offered(page) then 1 else 0)
    ensures CrawlFrom(site, i, page, read).result.Ok? ==>
              |CrawlFrom(site, i, page, read).fetched| == n + 1 - i + (if n < Offered(page) then 1 else 0)
    decreases n + 1 - i
  {
    if i <= n {
      CrawlFromGathers(site, page, n, i + 1, read);
      ExtractAllAppend(Listing(site, i), Gather(site, i + 1, n), read);
    } else {
      assert Gather(site, i, n) == [];
    }
  }

  /** `run` returns one movie per item of the pages before the first empty
      one (at most `page` of them), pages concatenated in order; it fetches
      those pages, plus the empty page that stopped it, and stops early
      only on an exception. */
  lemma RunGathers(site: Site, page: int, n: nat)
    requires StopsAfter(site, page, n)
    ensures Run(site, page).result == ExtractAll(Gather(site, 1, n), ToMovie)
    ensures |Run(site, page).fetched| <= (if n < Offered(page) then n + 1 else n)
    ensures Run(site, page).result.Ok? ==>
              |Run(site, page).fetched| == (if n < Offered(page) then n + 1 else n)
  {
    CrawlFromGathers(site, page, n, 1, ToMovie);
  }

  /** Every request has a stopping point: the pages before the first empty
      one, cut at the number offered. */
  lemma {:induction false} StopPointExists(site: Site, page: int) returns (n: nat)
    ensures StopsAfter(site, page, n)
  {
    n := 0;
    while n < Offered(page) && Listing(site, n + 1) != []
      invariant n <= Offered(page)
      invariant forall k :: 1 <= k <= n ==> Listing(site, k) != []
      decreases Offered(page) - n
    {
      n := n + 1;
    }
  }

  /** No page after an empty one is ever fetched. */
  lemma NothingPastAnEmptyPage(site: Site, page: int, e: int)
    requires 1 <= e && Listing(site, e) == []
    ensures forall k :: 0 <= k < |Run(site, page).fetched| ==> Run(site, page).fetched[k] <= e
  {
  }

  /** Five pages requested from a site whose third page is empty: pages 1
      to 3 are fetched and the movies of pages 1 and 2 come back. */
  lemma EmptyThirdPage(site: Site)
    requires |site| >= 3 && site[0] != [] && site[1] != [] && site[2] == []
    ensures Run(site, 5).result == ExtractAll(site[0] + site[1], ToMovie)
    ensures Run(site, 5).result.Ok? ==> Run(site, 5).fetched == [1, 2, 3]
  {
    assert StopsAfter(site, 5, 2);
    RunGathers(site, 5, 2);
    assert Gather(site, 3, 2) == [];
    assert Gather(site, 1, 2) == site[0] + site[1];
  }
}
