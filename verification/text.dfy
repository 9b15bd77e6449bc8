/** Character deletion, the only text cleaning the scraper does: chained
    `str.replace(c, "")` calls. */
module Text {

  /** The characters `get_info_text` deletes from a synopsis. */
  const InfoBlanks: set<char> := {'\n', '\r', ' '}

  /** The characters `get_title` deletes from an anchor text. */
  const TitleBlanks: set<char> := {'\n', ' '}

  /** `r` is obtained from `s` by deleting some of its characters. */
  predicate IsSubsequence(r: string, s: string)
  {
    if r == [] then true
    else if s == [] then false
    else (r[0] == s[0] && IsSubsequence(r[1..], s[1..])) || IsSubsequence(r, s[1..])
  }

  /** `s` with every character of `drop` deleted and the rest kept in order. */
  function Without(s: string, drop: set<char>): (r: string)
    ensures forall i :: 0 <= i < |r| ==> r[i] !in drop
  {
    if s == [] then []
    else
      if s[0] in drop then Without(s[1..], drop)
      else [s[0]] + Without(s[1..], drop)
  }

  /** Deletion keeps every other character as often as it occurs. */
  lemma {:induction false} WithoutCounts(s: string, drop: set<char>)
    ensures forall c :: c !in drop ==> multiset(Without(s, drop))[c] == multiset(s)[c]
  {
    if s != [] {
      WithoutCounts(s[1..], drop);
      assert s == [s[0]] + s[1..];
    }
  }

  /** Deletion keeps the order of the characters it does not delete. */
  lemma {:induction false} WithoutIsSubsequence(s: string, drop: set<char>)
    ensures IsSubsequence(Without(s, drop), s)
  {
    if s != [] {
      WithoutIsSubsequence(s[1..], drop);
      var r := Without(s[1..], drop);
      if s[0] in drop {
        assert r == [] || IsSubsequence(r, s[1..]);
      } else {
        assert ([s[0]] + r)[1..] == r;
      }
    }
  }

  /** Python's `s.replace(c, "")`. */
  function Delete(s: string, c: char): string
  {
    Without(s, {c})
  }

  /** Deleting one set and then another is deleting their union. */
  lemma {:induction false} WithoutWithout(s: string, a: set<char>, b: set<char>)
    ensures Without(Without(s, a), b) == Without(s, a + b)
  {
    if s != [] {
      WithoutWithout(s[1..], a, b);
    }
  }

  /** Deleting characters that do not occur changes nothing. */
  lemma {:induction false} WithoutAbsent(s: string, drop: set<char>)
    requires forall i :: 0 <= i < |s| ==> s[i] !in drop
    ensures Without(s, drop) == s
  {
    if s != [] {
      WithoutAbsent(s[1..], drop);
    }
  }

  /** Deletion by a fixed set is idempotent. */
  lemma WithoutIdempotent(s: string, drop: set<char>)
    ensures Without(Without(s, drop), drop) == Without(s, drop)
  {
  }

  /** The synopsis cleaning of `get_info_text`: newlines, then carriage
      returns, then spaces are replaced by nothing. */
  function CleanInfoText(s: string): (r: string)
    ensures r == Without(s, InfoBlanks)
    ensures forall i :: 0 <= i < |r| ==> r[i] != '\n' && r[i] != '\r' && r[i] != ' '
    ensures IsSubsequence(r, s)
  {
    WithoutWithout(s, {'\n'}, {'\r'});
    WithoutWithout(s, {'\n'} + {'\r'}, {' '});
    assert {'\n'} + {'\r'} + {' '} == InfoBlanks;
    WithoutIsSubsequence(s, InfoBlanks);
    Delete(Delete(Delete(s, '\n'), '\r'), ' ')
  }

  /** Synopsis cleaning keeps every character other than the three blanks,
      as often as it occurs. */
  lemma CleanInfoTextCounts(s: string)
    ensures forall c :: c !in InfoBlanks ==> multiset(CleanInfoText(s))[c] == multiset(s)[c]
  {
    WithoutCounts(s, InfoBlanks);
  }

  /** Cleaning a synopsis twice is cleaning it once. */
  lemma CleanInfoTextIdempotent(s: string)
    ensures CleanInfoText(CleanInfoText(s)) == CleanInfoText(s)
  {
    WithoutIdempotent(s, InfoBlanks);
  }

  /** The title cleaning of `get_title`: newlines, then spaces are replaced by
      nothing; carriage returns survive. */
  function CleanTitle(s: string): (r: string)
    ensures r == Without(s, TitleBlanks)
    ensures forall i :: 0 <= i < |r| ==> r[i] != '\n' && r[i] != ' '
    ensures IsSubsequence(r, s)
  {
    WithoutWithout(s, {'\n'}, {' '});
    assert {'\n'} + {' '} == TitleBlanks;
    WithoutIsSubsequence(s, TitleBlanks);
    Delete(Delete(s, '\n'), ' ')
  }

  /** Deletion distributes over concatenation. */
  lemma {:induction false} WithoutAppend(a: string, b: string, drop: set<char>)
    ensures Without(a + b, drop) == Without(a, drop) + Without(b, drop)
  {
    if a != [] {
      var ab := a + b;
      assert ab[0] == a[0] && ab[1..] == a[1..] + b;
      WithoutAppend(a[1..], b, drop);
      if a[0] in drop {
        assert Without(ab, drop) == Without(a[1..] + b, drop);
      } else {
        assert Without(ab, drop) == [a[0]] + Without(a[1..] + b, drop);
      }
    } else {
      assert a + b == b;
    }
  }

  /** Deleting from a one-character string. */
  lemma WithoutSingle(c: char, drop: set<char>)
    ensures Without([c], drop) == if c in drop then [] else [c]
  {
  }

  /** Title cleaning keeps every carriage return. */
  lemma CleanTitleKeepsCarriageReturns(s: string)
    ensures multiset(CleanTitle(s))['\r'] == multiset(s)['\r']
  {
    WithoutCounts(s, TitleBlanks);
  }

  /** A carriage return after a title is kept while the spaces and the
      newline around it go: " Krampus \r\n" cleans to "Krampus\r". */
  lemma TitleKeepsCarriageReturn(word: string)
    requires forall i :: 0 <= i < |word| ==> word[i] !in TitleBlanks
    ensures CleanTitle([' '] + word + [' ', '\r', '\n']) == word + ['\r']
  {
    var tail := [' ', '\r', '\n'];
    assert tail == [' '] + (['\r'] + ['\n']);
    WithoutAbsent(word, TitleBlanks);
    WithoutSingle(' ', TitleBlanks);
    WithoutSingle('\r', TitleBlanks);
    WithoutSingle('\n', TitleBlanks);
    WithoutAppend(['\r'], ['\n'], TitleBlanks);
    WithoutAppend([' '], ['\r'] + ['\n'], TitleBlanks);
    WithoutAppend(word, tail, TitleBlanks);
    WithoutAppend([' '], word + tail, TitleBlanks);
    assert [' '] + word + tail == [' '] + (word + tail);
  }
}
