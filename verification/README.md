# yahoo_movie — a Dafny model of the listing scraper

The scraper reads the listing pages of a movie site ("currently showing" and
"upcoming"), turns every listing item into a `Movie` record and hands the
records to a notifier. This project models its core, `yahoo_movie/yahoo_movie.py`:

- **`MovieTag`**, the field getters of one listing item. The HTML is replaced
  by an `Item` record of the raw strings the CSS selectors would locate: the
  poster's `data-src`, the title-block anchors (text and `href`), the optional
  `dd` rating and `dt` want-to-watch values, the release-time text and the
  synopsis text (`MovieTags`).
- the text rules those getters apply: character deletion for titles and
  synopsis (`Text`), `int()` after deleting `%` and `str(n) + "%"` (`Numbers`),
  and the `re.search(r"\d+-\d+-\d+", ...)` release-date search (`ReleaseDate`);
- **`Movie.__init__`**, which writes the placeholder `"無"` for an absent
  rating or want-to-watch value (`Movies`);
- **`YahooMovie.run`**, the pagination loop. The site is an abstract sequence
  of page listings, and a page past its end shows an empty listing. `Run`
  returns the page numbers it fetched together with the movies it returned or
  the exception it raised (`Scraper`).

Exceptions are values: `Result<T>` is `Ok(value)` or `Err(IndexError |
ValueError | AttributeError)` (`Results`). Files: `results.dfy`, `text.dfy`,
`numbers.dfy`, `release_date.dfy`, `movie.dfy`, `movie_tag.dfy`, `scraper.dfy`.

The item loop (`Scraper.ExtractAll`) and the page loop (`Scraper.CrawlFrom`)
take the per-item conversion as a parameter so that their lemmas hold for any
conversion; `Scraper.Run` instantiates it with `MovieTags.ToMovie`.

Where the documented behaviour and the code disagree, the model follows the code:

- `run` indexes `title_tuple[1]`, so an item with fewer than two title
  anchors raises `IndexError`; an item without an English title is not
  turned into a movie.
- The docstring of `get_release_date` promises `YYYY-MM-DD`. The pattern
  accepts any three digit runs, so `"1-2-3"` is returned as it is.

## Model

| member | source | states |
|---|---|---|
| Text.Without | yahoo_movie/yahoo_movie.py:241 | deleting a set of characters leaves none of them in the result |
| Text.WithoutCounts | yahoo_movie/yahoo_movie.py:241 | every character that is not deleted occurs in the result exactly as often as in the input |
| Text.WithoutIsSubsequence | yahoo_movie/yahoo_movie.py:241 | the result keeps the relative order of the characters that remain |
| Text.WithoutWithout | yahoo_movie/yahoo_movie.py:241 | chained `replace(c, "")` calls equal a single deletion of all the characters |
| Text.WithoutAppend | yahoo_movie/yahoo_movie.py:241 | deletion distributes over concatenation |
| Text.CleanInfoText | yahoo_movie/yahoo_movie.py:237-241 | the synopsis cleaning (`\n`, then `\r`, then space) deletes exactly those three characters, none remain, and the order of the rest is kept |
| Text.CleanInfoTextCounts | yahoo_movie/yahoo_movie.py:241 | every other synopsis character survives as often as it occurs |
| Text.CleanInfoTextIdempotent | yahoo_movie/yahoo_movie.py:241 | cleaning a synopsis twice gives the same text as cleaning it once |
| Text.CleanTitle | yahoo_movie/yahoo_movie.py:164-166 | title cleaning deletes exactly newline and space, keeps carriage returns and the order of the rest |
| Text.CleanTitleKeepsCarriageReturns | yahoo_movie/yahoo_movie.py:165 | every carriage return of a title survives cleaning |
| Text.TitleKeepsCarriageReturn | yahoo_movie/yahoo_movie.py:165 | `" Krampus \r\n"` and any such title clean to the word followed by `\r` |
| Numbers.NatToDigits | yahoo_movie/yahoo_movie.py:46 | `str(n)` for `n >= 0` is canonical decimal text whose value is `n` |
| Numbers.IntToString | yahoo_movie/yahoo_movie.py:46 | `str(n)` is canonical digits, behind a `-` for negative `n` |
| Numbers.ParseInt | yahoo_movie/yahoo_movie.py:214 | `int()` succeeds exactly on digits with an optional `+`/`-` sign, giving the signed digits' value, and raises `ValueError` otherwise |
| Numbers.DigitsRoundTrip | yahoo_movie/yahoo_movie.py:46 | printing the value of canonical digits gives the digits back |
| Numbers.ParsePrintedInt | yahoo_movie/yahoo_movie.py:46 | `int(str(n)) == n` for every integer |
| Numbers.PrintParsedDigits | yahoo_movie/yahoo_movie.py:214 | `str(int(d)) == d` for canonical digits |
| ReleaseDate.RunEnd | yahoo_movie/yahoo_movie.py:226 | a greedy `\d+` ends at the first non-digit and covers only digits |
| ReleaseDate.DashesAreForced | yahoo_movie/yahoo_movie.py:226 | in any match of the pattern, each dash sits where the digit run before it ends |
| ReleaseDate.MatchAt | yahoo_movie/yahoo_movie.py:226 | the attempt at one position succeeds exactly when the pattern matches there, and ends at the longest match |
| ReleaseDate.SearchFrom | yahoo_movie/yahoo_movie.py:226 | trying positions left to right finds a match whenever one exists and none starts earlier |
| ReleaseDate.Search | yahoo_movie/yahoo_movie.py:226 | `re.search` reports the leftmost-longest match, and nothing exactly when no substring matches |
| ReleaseDate.MatchIsDateShaped | yahoo_movie/yahoo_movie.py:226-228 | a matched span, cut out of the text, has the digits-digits-digits shape on its own |
| ReleaseDate.GetReleaseDate | yahoo_movie/yahoo_movie.py:225-228 | the date is a leftmost-longest substring of the text with the pattern's shape; `AttributeError` exactly when no substring matches |
| ReleaseDate.LeftmostLongestIsMaximal | yahoo_movie/yahoo_movie.py:226 | the reported match is preceded and followed by non-digits, so every digit run in it is maximal |
| ReleaseDate.ReleaseDateIsLeftmostLongest | yahoo_movie/yahoo_movie.py:226-228 | whichever span is leftmost-longest is what `get_release_date` returns |
| ReleaseDate.DateAfterPrefix | yahoo_movie/yahoo_movie.py:222-228 | a date after a digit-free caption is returned whole, whatever the lengths of its runs (not necessarily `YYYY-MM-DD`) |
| ReleaseDate.NoDigitsNoDate | yahoo_movie/yahoo_movie.py:226-228 | text without digits makes `get_release_date` raise `AttributeError` |
| Movies.RenderRate | yahoo_movie/yahoo_movie.py:45 | an absent rating becomes the text `"無"`, a present one is stored unchanged |
| Movies.RenderWant | yahoo_movie/yahoo_movie.py:46 | an absent want-to-watch becomes `"無"`, a present `n` becomes `str(n)` followed by `%` |
| Movies.NewMovie | yahoo_movie/yahoo_movie.py:42-49 | the constructor renders the two optional values independently and stores every other argument unchanged |
| Movies.RenderingIsInjective | yahoo_movie/yahoo_movie.py:45-46 | the placeholder never collides with a rendered value, so the optional values can be read back |
| MovieTags.GetTitle | yahoo_movie/yahoo_movie.py:157-169 | one cleaned title per anchor, in anchor order |
| MovieTags.GetInfoLink | yahoo_movie/yahoo_movie.py:171-178 | the first anchor's `href`; `AttributeError` when the title block has no anchor |
| MovieTags.GetRate | yahoo_movie/yahoo_movie.py:180-196 | the rating is absent exactly when the `dd` node is, and no exception is raised then |
| MovieTags.GetWantToWatch | yahoo_movie/yahoo_movie.py:198-216 | no value exactly when the `dt` node is absent (never an exception then); otherwise every `%` is deleted and the result is exactly what `int()` gives for the rest, `ValueError` included |
| MovieTags.ToMovieSpec | yahoo_movie/yahoo_movie.py:101-116 | an item gives `IndexError` with fewer than two anchors, then `ValueError` or `AttributeError` in argument order, else a movie with cleaned titles and synopsis, rendered optional values, the release date `get_release_date` finds in the release-time text, and the first anchor's link |
| MovieTags.WantToWatchRoundTrip | yahoo_movie/yahoo_movie.py:213-214 | canonical text `d%` read by `get_want_to_watch` and rendered by the constructor is `d%` again |
| MovieTags.RenderedWantReadsBack | yahoo_movie/yahoo_movie.py:46 | any rendered want-to-watch value is read back unchanged |
| MovieTags.WorkedSynopsis | yahoo_movie/yahoo_movie.py:241 | `"耶誕 恐怖 片\n"` cleans to `"耶誕恐怖片"` |
| MovieTags.WorkedReleaseDate | yahoo_movie/yahoo_movie.py:226-228 | `"上映日期：2023-12-25"` yields `"2023-12-25"` |
| MovieTags.WorkedItem | yahoo_movie/yahoo_movie.py:101-116 | the worked item (two titles, rating 7.5, "88%", release caption, synopsis with blanks) becomes the expected movie |
| Scraper.ExtractAllSpec | yahoo_movie/yahoo_movie.py:101-118 | the item loop yields one movie per item at the item's position, or the exception of the first failing item |
| Scraper.ExtractAllAppend | yahoo_movie/yahoo_movie.py:101-118 | the item loop over two lists is the loop over the first followed by the loop over the second |
| Scraper.CrawlFrom | yahoo_movie/yahoo_movie.py:90-99 | from page `i` on, pages are fetched in order, at most up to `page`, and only the last fetched page may be empty |
| Scraper.Run | yahoo_movie/yahoo_movie.py:88-120 | pages 1, 2, ... are fetched in order, never more than `page`, none when `page <= 0`, and every fetched page but the last has items |
| Scraper.CrawlFromGathers | yahoo_movie/yahoo_movie.py:88-120 | from page `i` on, the result is the item loop over pages `i..n` concatenated |
| Scraper.RunGathers | yahoo_movie/yahoo_movie.py:88-120 | `run` returns the item loop over the concatenated pages before the first empty one, and fetches those pages plus the empty one unless an exception stops it |
| Scraper.StopPointExists | yahoo_movie/yahoo_movie.py:90-99 | every request has a stopping point: the first empty page or the last offered page |
| Scraper.NothingPastAnEmptyPage | yahoo_movie/yahoo_movie.py:98-99 | no page after an empty one is fetched |
| Scraper.EmptyThirdPage | yahoo_movie/yahoo_movie.py:90-99 | five pages requested, third empty: pages 1 to 3 are fetched and the movies of pages 1 and 2 come back |

## Left out

- HTTP requests and the status-code check (`yahoo_movie/helper.py`): the site is a parameter, every fetch succeeds.
- HTML parsing and the selector chains: an `Item` holds what they locate. The `AttributeError`s a missing container, image or block would cause are not modelled. The missing-anchor case of `get_info_link` and the missing-match case of `get_release_date` are modelled.
- Missing attributes: `.get("data-src")` and `.get("href")` give `None` when the attribute is absent, and the source stores that `None` as the poster or movie link. The model's links are strings, so an absent attribute is not modelled.
- `float(None)` raises `TypeError` for a `dd` node without a `data-num` attribute. The model's rating always carries attribute text, so this error is not modelled.
- MovieTags.GetRate: does not model `float(data-num)`; the rating stays the attribute text. A `ValueError` for a malformed number is not modelled, because floating-point parsing is out of scope.
- Numbers.ParseInt: accepts only an optional sign and ASCII digits. Python's `int()` also skips surrounding whitespace, allows `_` between digits and reads Unicode digits. Text with those is rejected here.
- ReleaseDate.GetReleaseDate: `\d` is ASCII `0`-`9` only; Python also matches other Unicode decimal digits.
- Movie.__repr__, the notification templates and the webhook POST in `main.py`: output formatting and network I/O.
- `config.py`: environment loading with no logic; `page` is an integer parameter of `Run`.
