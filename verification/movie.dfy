/** The `Movie` record and the placeholder its constructor writes for an
    absent rating or want-to-watch value. */
module Movies {
  import opened Results
  import opened Numbers

  /** What the message shows for a value the listing did not carry. */
  const Placeholder: string := "無"

  /** A rating as the listing carries it: the text of the `data-num`
      attribute. The conversion to `float` is not modelled. */
  datatype Rating = Rating(dataNum: string)

  /** The `rate` attribute holds either the rating or the placeholder text. */
  datatype RateField = Score(rating: Rating) | Missing(text: string)

  /** One scraped film, after the constructor's rendering. */
  datatype Movie = Movie(
    posterLink: string,
    titleCh: string,
    titleEn: string,
    rate: RateField,
    wantWatch: string,
    releaseDate: string,
    infoText: string,
    movieLink: string)

  /** `rate if rate is not None else "無"`. */
  function RenderRate(rate: Option<Rating>): (f: RateField)
    ensures rate.None? <==> f == Missing(Placeholder)
    ensures rate.Some? ==> f == Score(rate.value)
  {
    match rate
    case Some(r) => Score(r)
    case None => Missing(Placeholder)
  }

  /** `str(want_watch) + "%" if want_watch is not None else "無"`. */
  function RenderWant(want: Option<int>): (w: string)
    ensures want.None? <==> w == Placeholder
    ensures want.Some? ==> |w| >= 2 && w[|w| - 1] == '%' && w[..|w| - 1] == IntToString(want.value)
  {
    match want
    case Some(n) =>
      var w := IntToString(n) + "%";
      assert w[..|w| - 1] == IntToString(n);
      w
    case None => Placeholder
  }

  /** `Movie.__init__`: the two optional values are rendered, each on its
      own, and every other argument is stored as given. */
  function NewMovie(
    posterLink: string, titleCh: string, titleEn: string, rate: Option<Rating>,
    want: Option<int>, releaseDate: string, infoText: string, movieLink: string): (m: Movie)
    ensures m.posterLink == posterLink && m.titleCh == titleCh && m.titleEn == titleEn
    ensures m.releaseDate == releaseDate && m.infoText == infoText && m.movieLink == movieLink
    ensures m.rate == RenderRate(rate) && m.wantWatch == RenderWant(want)
  {
    Movie(posterLink, titleCh, titleEn, RenderRate(rate), RenderWant(want),
          releaseDate, infoText, movieLink)
  }

  /** Reads the rating back from a `rate` attribute. */
  function RateOf(f: RateField): Option<Rating>
  {
    match f
    case Score(r) => Some(r)
    case Missing(_) => None
  }

  /** The placeholder never collides with a rendered value, so a `Movie`
      still tells which optional values were present and what they were. */
  lemma RenderingIsInjective(rate: Option<Rating>, want: Option<int>, rate': Option<Rating>, want': Option<int>)
    ensures RenderRate(rate) == RenderRate(rate') ==> rate == rate'
    ensures RenderWant(want) == RenderWant(want') ==> want == want'
    ensures RateOf(RenderRate(rate)) == rate
  {
  }
}
