/** `MovieTag`: the field getters over one listing item, with the HTML
    replaced by the raw strings its selectors would locate. */
module MovieTags {
  import opened Results
  import opened Text
  import opened Numbers
  import ReleaseDate
  import opened Movies

  /** An anchor of the title block: its text and its `href`. */
  datatype Anchor = Anchor(text: string, href: string)

  /** One `<li>` of the release list, as the selectors see it. */
  datatype Item = Item(
    posterLink: string,         // `data-src` of the lazy-load image
    anchors: seq<Anchor>,       // the anchors of the title block, in order
    rateDd: Option<Rating>,     // `data-num` under the `dd` node, if there is one
    wantDt: Option<string>,     // the span text under the `dt` node, if there is one
    releaseTime: string,        // the text of the release-time node
    infoSpan: string)           // the text of the synopsis span

  /** `get_title`: every anchor text with newlines and spaces deleted. */
  function GetTitle(item: Item): (r: seq<string>)
    ensures |r| == |item.anchors|
    ensures forall i :: 0 <= i < |r| ==> r[i] == Without(item.anchors[i].text, TitleBlanks)
  {
    seq(|item.anchors|, i requires 0 <= i < |item.anchors| => CleanTitle(item.anchors[i].text))
  }

  /** `get_info_link`: the `href` of the first anchor; `.get` on the `None`
      that `find("a")` gives for an empty title block raises. */
  function GetInfoLink(item: Item): (r: Result<string>)
    ensures r.Ok? <==> |item.anchors| > 0
    ensures r.Ok? ==> r.value == item.anchors[0].href
    ensures r.Err? ==> r.error == AttributeError
  {
    if |item.anchors| == 0 then Err(AttributeError) else Ok(item.anchors[0].href)
  }

  /** `get_rate`: the rating exactly when the `dd` node is there. */
  function GetRate(item: Item): (r: Option<Rating>)
    ensures r.None? <==> item.rateDd.None?
    ensures item.rateDd.Some? ==> r == item.rateDd
  {
    item.rateDd
  }

  /** `get_want_to_watch`: no value exactly when the `dt` node is absent;
      otherwise every '%' is deleted and the rest is read by `int()`. */
  function GetWantToWatch(item: Item): (r: Result<Option<int>>)
    ensures r == Ok(None) <==> item.wantDt.None?
    ensures r.Err? ==> item.wantDt.Some? && r.error == ValueError
    ensures item.wantDt.Some? ==>
              r == match ParseInt(Delete(item.wantDt.value, '%'))
                   case Ok(n) => Ok(Some(n))
                   case Err(e) => Err(e)
    ensures item.wantDt.Some? && IsDigits(Delete(item.wantDt.value, '%')) ==>
              r == Ok(Some(DigitsValue(Delete(item.wantDt.value, '%'))))
  {
    match item.wantDt
    case None => Ok(None)
    case Some(text) =>
      var n :- ParseInt(Delete(text, '%'));
      Ok(Some(n))
  }

  /** `get_info_text` over the synopsis span text. */
  function GetInfoText(item: Item): string
  {
    CleanInfoText(item.infoSpan)
  }

  /** One iteration of the loop body in `run`: the getters run in the order
      the `Movie(...)` arguments are evaluated, so the first failing one
      decides the exception. */
  function ToMovie(item: Item): Result<Movie>
  {
    var titles := GetTitle(item);
    if |titles| < 2 then Err(IndexError)
    else
      var want :- GetWantToWatch(item);
      var date :- ReleaseDate.GetReleaseDate(item.releaseTime);
      var link := GetInfoLink(item).value;
      Ok(NewMovie(item.posterLink, titles[0], titles[1], GetRate(item), want,
                  date, GetInfoText(item), link))
  }

  /** What the loop body of `run` makes of an item: an `IndexError` with
      fewer than two title anchors; otherwise a movie exactly when the
      want-to-watch text is an integer and the release text holds a date,
      carrying the cleaned titles and synopsis, the rendered optional values
      and the first anchor's link. */
  lemma ToMovieSpec(item: Item)
    ensures |item.anchors| < 2 ==> ToMovie(item) == Err(IndexError)
    ensures |item.anchors| >= 2 && GetWantToWatch(item).Err? ==> ToMovie(item) == Err(ValueError)
    ensures |item.anchors| >= 2 && GetWantToWatch(item).Ok? && ReleaseDate.GetReleaseDate(item.releaseTime).Err? ==>
              ToMovie(item) == Err(AttributeError)
    ensures ToMovie(item).Ok? <==>
              && |item.anchors| >= 2
              && GetWantToWatch(item).Ok?
              && exists k, j :: ReleaseDate.IsMatch(item.releaseTime, k, j)
    ensures ToMovie(item).Ok? ==>
              && ToMovie(item).value.posterLink == item.posterLink
              && ToMovie(item).value.titleCh == Without(item.anchors[0].text, TitleBlanks)
              && ToMovie(item).value.titleEn == Without(item.anchors[1].text, TitleBlanks)
              && ToMovie(item).value.movieLink == item.anchors[0].href
              && ToMovie(item).value.rate == RenderRate(item.rateDd)
              && ToMovie(item).value.wantWatch == RenderWant(GetWantToWatch(item).value)
              && ToMovie(item).value.releaseDate == ReleaseDate.GetReleaseDate(item.releaseTime).value
              && ReleaseDate.DateShaped(ToMovie(item).value.releaseDate)
              && ToMovie(item).value.infoText == Without(item.infoSpan, InfoBlanks)
  {
  }

  /** Canonical want-to-watch text "d%" survives being read by
      `get_want_to_watch` and rendered by the constructor. */
  lemma WantToWatchRoundTrip(item: Item, d: string)
    requires item.wantDt == Some(d + "%") && IsCanonical(d)
    ensures GetWantToWatch(item).Ok?
    ensures RenderWant(GetWantToWatch(item).value) == d + "%"
  {
    WithoutAbsent(d, {'%'});
    WithoutAppend(d, "%", {'%'});
    WithoutSingle('%', {'%'});
    assert Delete(d + "%", '%') == d;
    PrintParsedDigits(d);
    assert ParseInt(d) == Ok(DigitsValue(d));
  }

  /** Any value the constructor renders is read back by
      `get_want_to_watch` unchanged. */
  lemma RenderedWantReadsBack(item: Item, n: int)
    requires item.wantDt == Some(RenderWant(Some(n)))
    ensures GetWantToWatch(item) == Ok(Some(n))
  {
    var s := IntToString(n);
    assert forall i :: 0 <= i < |s| ==> s[i] == '-' || IsDigit(s[i]);
    WithoutAbsent(s, {'%'});
    WithoutAppend(s, "%", {'%'});
    WithoutSingle('%', {'%'});
    assert Delete(s + "%", '%') == s;
    ParsePrintedInt(n);
  }

  /** The synopsis of the worked item loses its spaces and newline. */
  lemma WorkedSynopsis()
    ensures CleanInfoText("耶誕 恐怖 片\n") == "耶誕恐怖片"
  {
    var w1, w2, w3 := "耶誕", "恐怖", "片";
    WithoutAbsent(w1, InfoBlanks);
    WithoutAbsent(w2, InfoBlanks);
    WithoutAbsent(w3, InfoBlanks);
    WithoutSingle(' ', InfoBlanks);
    WithoutSingle('\n', InfoBlanks);
    WithoutAppend(w3, ['\n'], InfoBlanks);
    WithoutAppend([' '], w3 + ['\n'], InfoBlanks);
    WithoutAppend(w2, [' '] + (w3 + ['\n']), InfoBlanks);
    WithoutAppend([' '], w2 + ([' '] + (w3 + ['\n'])), InfoBlanks);
    WithoutAppend(w1, [' '] + (w2 + ([' '] + (w3 + ['\n']))), InfoBlanks);
    assert "耶誕 恐怖 片\n" == w1 + ([' '] + (w2 + ([' '] + (w3 + ['\n']))));
    assert w1 + w2 + w3 == "耶誕恐怖片";
  }

  /** The release text of the worked item yields its date. */
  lemma WorkedReleaseDate(text: string)
    requires text == "上映日期：2023-12-25"
    ensures ReleaseDate.GetReleaseDate(text) == Ok("2023-12-25")
  {
    var caption, y, m, d := "上映日期：", "2023", "12", "25";
    assert text == caption + y + "-" + m + "-" + d;
    assert "2023-12-25" == y + "-" + m + "-" + d;
    ReleaseDate.DateAfterPrefix(caption, y, m, d);
  }

  /** The worked listing item: both titles, a rating, "88%", a release text
      with a caption and a synopsis with blanks give the expected movie. */
  lemma WorkedItem(poster: string, ch: string, en: string, href: string, href': string)
    requires forall i :: 0 <= i < |ch| ==> ch[i] !in TitleBlanks
    requires forall i :: 0 <= i < |en| ==> en[i] !in TitleBlanks
    ensures ToMovie(Item(poster, [Anchor(ch, href), Anchor(en, href')], Some(Rating("7.5")),
                         Some("88%"), "上映日期：2023-12-25", "耶誕 恐怖 片\n"))
         == Ok(Movie(poster, ch, en, Score(Rating("7.5")), "88%", "2023-12-25", "耶誕恐怖片", href))
  {
    var item := Item(poster, [Anchor(ch, href), Anchor(en, href')], Some(Rating("7.5")),
                     Some("88%"), "上映日期：2023-12-25", "耶誕 恐怖 片\n");
    WithoutAbsent(ch, TitleBlanks);
    WithoutAbsent(en, TitleBlanks);
    assert "88%" == "88" + "%";
    WantToWatchRoundTrip(item, "88");
    WorkedReleaseDate(item.releaseTime);
    WorkedSynopsis();
  }
}
