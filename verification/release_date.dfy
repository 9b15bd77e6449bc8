/** `re.search(r"\d+-\d+-\d+", text)` followed by `m.group(0)`, as
    `get_release_date` uses them: the leftmost match, each `\d+` as greedy
    as the pattern allows, and an `AttributeError` when nothing matches. */
module ReleaseDate {
  import opened Results
  import opened Numbers

  /** s[a..b] is a non-empty run of digits. */
  predicate DigitRun(s: string, a: int, b: int)
  {
    0 <= a < b <= |s| && forall k :: a <= k < b ==> IsDigit(s[k])
  }

  /** s[i..j] reads digits, '-', digits, '-', digits, with the dashes at p and q. */
  predicate DateAt(s: string, i: int, p: int, q: int, j: int)
  {
    && DigitRun(s, i, p) && p < |s| && s[p] == '-'
    && DigitRun(s, p + 1, q) && q < |s| && s[q] == '-'
    && DigitRun(s, q + 1, j)
  }

  /** The pattern `\d+-\d+-\d+` matches exactly s[i..j]. */
  ghost predicate IsMatch(s: string, i: int, j: int)
  {
    exists p, q :: DateAt(s, i, p, q, j)
  }

  /** The whole of `t` has the shape digits-digits-digits. */
  ghost predicate DateShaped(t: string)
  {
    IsMatch(t, 0, |t|)
  }

  /** s[i..j] is the match `re.search` reports: no match starts before i,
      and no match starting at i is longer. */
  ghost predicate LeftmostLongest(s: string, i: int, j: int)
  {
    && IsMatch(s, i, j)
    && (forall k, j' :: IsMatch(s, k, j') ==> i <= k)
    && (forall j' :: IsMatch(s, i, j') ==> j' <= j)
  }

  /** The end of the longest run of digits starting at k. */
  function RunEnd(s: string, k: nat): (e: nat)
    requires k <= |s|
    ensures k <= e <= |s|
    ensures forall m :: k <= m < e ==> IsDigit(s[m])
    ensures e == |s| || !IsDigit(s[e])
    decreases |s| - k
  {
    if k < |s| && IsDigit(s[k]) then RunEnd(s, k + 1) else k
  }

  /** In any match, each dash sits where the digit run before it ends, and
      the last run ends no later than the digits do. */
  lemma DashesAreForced(s: string, i: int, p: int, q: int, j: int)
    requires DateAt(s, i, p, q, j)
    ensures RunEnd(s, i) == p && RunEnd(s, p + 1) == q && j <= RunEnd(s, q + 1)
  {
  }

  /** The regular-expression engine's attempt at position i: greedy digit
      runs, each of which must be followed by a dash except the last. */
  function MatchAt(s: string, i: nat): (r: Option<nat>)
    requires i <= |s|
    ensures r.Some? ==> IsMatch(s, i, r.value)
    ensures forall j :: IsMatch(s, i, j) ==> r.Some? && j <= r.value
  {
    var p := RunEnd(s, i);
    if p == i || p == |s| || s[p] != '-' then
      assert forall j :: !IsMatch(s, i, j) by {
        forall j | IsMatch(s, i, j) ensures false {
          var p', q' :| DateAt(s, i, p', q', j);
          DashesAreForced(s, i, p', q', j);
        }
      }
      None
    else
      var q := RunEnd(s, p + 1);
      if q == p + 1 || q == |s| || s[q] != '-' then
        assert forall j :: !IsMatch(s, i, j) by {
          forall j | IsMatch(s, i, j) ensures false {
            var p', q' :| DateAt(s, i, p', q', j);
            DashesAreForced(s, i, p', q', j);
          }
        }
        None
      else
        var e := RunEnd(s, q + 1);
        if e == q + 1 then
          assert forall j :: !IsMatch(s, i, j) by {
            forall j | IsMatch(s, i, j) ensures false {
              var p', q' :| DateAt(s, i, p', q', j);
              DashesAreForced(s, i, p', q', j);
            }
          }
          None
        else
          assert DateAt(s, i, p, q, e);
          assert forall j :: IsMatch(s, i, j) ==> j <= e by {
            forall j | IsMatch(s, i, j) ensures j <= e {
              var p', q' :| DateAt(s, i, p', q', j);
              DashesAreForced(s, i, p', q', j);
            }
          }
          Some(e)
  }

  /** `re.search` from position i on: tries i, i + 1, ... up to the end of
      the text and reports the first attempt that succeeds. */
  function SearchFrom(s: string, i: nat): (r: Option<(nat, nat)>)
    requires i <= |s|
    ensures r.Some? ==> i <= r.value.0 && IsMatch(s, r.value.0, r.value.1)
    ensures r.Some? ==> forall j :: IsMatch(s, r.value.0, j) ==> j <= r.value.1
    ensures forall k, j :: i <= k && IsMatch(s, k, j) ==> r.Some? && r.value.0 <= k
    decreases |s| - i
  {
    match MatchAt(s, i)
    case Some(e) => Some((i, e))
    case None =>
      if i == |s| then None else SearchFrom(s, i + 1)
  }

  /** The span `re.search(r"\d+-\d+-\d+", s)` reports, if any. */
  function Search(s: string): (r: Option<(nat, nat)>)
    ensures r.Some? ==> LeftmostLongest(s, r.value.0, r.value.1)
    ensures r.None? <==> forall k, j :: !IsMatch(s, k, j)
  {
    SearchFrom(s, 0)
  }

  /** A matched span, cut out of the text, has the date shape on its own. */
  lemma MatchIsDateShaped(s: string, i: int, j: int)
    requires IsMatch(s, i, j)
    ensures 0 <= i <= j <= |s| && DateShaped(s[i..j])
  {
    var p, q :| DateAt(s, i, p, q, j);
    assert DateAt(s[i..j], 0, p - i, q - i, j - i);
  }

  /** `get_release_date` over the text of the release-time node. */
  function GetReleaseDate(text: string): (r: Result<string>)
    ensures r.Err? <==> forall k, j :: !IsMatch(text, k, j)
    ensures r.Err? ==> r.error == AttributeError
    ensures r.Ok? ==> DateShaped(r.value)
    ensures r.Ok? ==> exists i, j :: LeftmostLongest(text, i, j) && r.value == text[i..j]
  {
    match Search(text)
    case None => Err(AttributeError)
    case Some((i, j)) =>
      MatchIsDateShaped(text, i, j);
      Ok(text[i..j])
  }

  /** The reported match never extends a run of digits: the digits before it
      and after it are not digits, so every run in it is maximal. */
  lemma LeftmostLongestIsMaximal(s: string, i: int, j: int)
    requires LeftmostLongest(s, i, j)
    ensures i == 0 || !IsDigit(s[i - 1])
    ensures j == |s| || !IsDigit(s[j])
  {
    var p, q :| DateAt(s, i, p, q, j);
    assert i > 0 && IsDigit(s[i - 1]) ==> DateAt(s, i - 1, p, q, j) && IsMatch(s, i - 1, j);
    assert j < |s| && IsDigit(s[j]) ==> DateAt(s, i, p, q, j + 1) && IsMatch(s, i, j + 1);
  }

  /** A date written after a prefix: the three digit runs sit where the
      concatenation puts them. */
  lemma DateAtConcat(prefix: string, y: string, m: string, d: string)
    requires IsDigits(y) && IsDigits(m) && IsDigits(d)
    ensures var p := |prefix| + |y|;
      DateAt(prefix + y + "-" + m + "-" + d, |prefix|, p, p + 1 + |m|, |prefix| + |y| + |m| + |d| + 2)
  {
  }

  /** No match starts inside a stretch without digits. */
  lemma NoMatchAmongNonDigits(s: string, a: int)
    requires 0 <= a <= |s|
    requires forall k :: 0 <= k < a ==> !IsDigit(s[k])
    ensures forall k, j :: IsMatch(s, k, j) ==> a <= k
  {
    forall k, p, q, j | k < a
      ensures !DateAt(s, k, p, q, j)
    {
      if 0 <= k {
        assert !IsDigit(s[k]);
      }
    }
  }

  /** `get_release_date` returns the leftmost-longest span whenever one is
      known. */
  lemma ReleaseDateIsLeftmostLongest(s: string, i: int, j: int)
    requires LeftmostLongest(s, i, j)
    ensures 0 <= i <= j <= |s| && GetReleaseDate(s) == Ok(s[i..j])
  {
  }

  /** A date after a prefix without digits is found whole, whatever the
      lengths of its three digit runs: "上映日期：2023-12-25" gives
      "2023-12-25", and "1-2-3" gives "1-2-3", which is no YYYY-MM-DD. */
  lemma DateAfterPrefix(prefix: string, y: string, m: string, d: string)
    requires forall k :: 0 <= k < |prefix| ==> !IsDigit(prefix[k])
    requires IsDigits(y) && IsDigits(m) && IsDigits(d)
    ensures GetReleaseDate(prefix + y + "-" + m + "-" + d) == Ok(y + "-" + m + "-" + d)
  {
    var date := y + "-" + m + "-" + d;
    var s := prefix + y + "-" + m + "-" + d;
    assert s == prefix + date;
    var a := |prefix|;
    DateAtConcat(prefix, y, m, d);
    assert IsMatch(s, a, |s|);
    assert forall k :: 0 <= k < a ==> s[k] == prefix[k];
    NoMatchAmongNonDigits(s, a);
    assert LeftmostLongest(s, a, |s|);
    ReleaseDateIsLeftmostLongest(s, a, |s|);
    assert s[a..|s|] == date;
  }

  /** Text without a single digit has no release date: `m` is `None` and
      `m.group(0)` raises. */
  lemma NoDigitsNoDate(text: string)
    requires forall k :: 0 <= k < |text| ==> !IsDigit(text[k])
    ensures GetReleaseDate(text) == Err(AttributeError)
  {
    NoMatchAmongNonDigits(text, |text|);
  }
}
