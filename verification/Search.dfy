/** Search terms inside LIKE patterns: EscapeLike (backend/pkg/strutil/strutil.go) and
    likePattern (backend/internal/repository/hrm_common.go), against a matcher for the pattern
    language of section 9.7.1 of the PostgreSQL manual. */
module Search {

  // ---- the code -----------------------------------------------------------------------

  predicate IsSpecial(c: char) {
    c == '\\' || c == '%' || c == '_'
  }

  /** Backslash, % and _ each get a backslash in front; one pass, nothing is escaped twice. */
  function EscapeLike(s: string): string {
    if s == "" then ""
    else (if IsSpecial(s[0]) then ['\\', s[0]] else [s[0]]) + EscapeLike(s[1..])
  }

  /** Empty in, empty out: callers leave the filter out for an empty pattern. */
  function LikePattern(search: string): string {
    if search == "" then "" else "%" + search + "%"
  }

  // ---- the pattern language ---------------------------------------------------------------

  /** The whole of `text` matches `pattern`: % any run of characters, _ any one character, a
      backslash makes the next character literal; characters are compared after `fold`, the
      identity for LIKE and the lower-case mapping for ILIKE. A pattern may not end with a
      backslash that escapes nothing; such a pattern matches nothing here. */
  predicate Like(fold: char -> char, pattern: string, text: string)
    decreases |pattern|, |text|
  {
    if pattern == "" then text == ""
    else if pattern[0] == '%' then
      Like(fold, pattern[1..], text) || (text != "" && Like(fold, pattern, text[1..]))
    else if text == "" then false
    else if pattern[0] == '_' then Like(fold, pattern[1..], text[1..])
    else if pattern[0] == '\\' then
      |pattern| > 1 && fold(pattern[1]) == fold(text[0]) && Like(fold, pattern[2..], text[1..])
    else fold(pattern[0]) == fold(text[0]) && Like(fold, pattern[1..], text[1..])
  }

  /** The server accepts the pattern: no escape character is left hanging at its end. */
  predicate WellFormed(pattern: string)
    decreases |pattern|
  {
    if pattern == "" then true
    else if pattern[0] == '\\' then |pattern| > 1 && WellFormed(pattern[2..])
    else WellFormed(pattern[1..])
  }

  // ---- what a search promises ------------------------------------------------------------

  /** Equal texts after folding. */
  predicate SameText(fold: char -> char, a: string, b: string) {
    |a| == |b| && forall i :: 0 <= i < |a| ==> fold(a[i]) == fold(b[i])
  }

  predicate OccursAt(fold: char -> char, term: string, text: string, i: int) {
    0 <= i <= |text| - |term| && SameText(fold, term, text[i..i + |term|])
  }

  /** The term occurs in the text, character for character. */
  ghost predicate Contains(fold: char -> char, term: string, text: string) {
    exists i :: OccursAt(fold, term, text, i)
  }

  /** The pattern left when the first, possibly escaped, character of the term is taken off. */
  lemma EscapeFront(term: string, pattern: string)
    requires term != ""
    ensures var whole, tail := EscapeLike(term) + pattern, EscapeLike(term[1..]) + pattern;
            if IsSpecial(term[0]) then whole[..2] == ['\\', term[0]] && whole[2..] == tail
            else whole[0] == term[0] && whole[1..] == tail
  {
    var first := if IsSpecial(term[0]) then ['\\', term[0]] else [term[0]];
    assert EscapeLike(term) + pattern == first + (EscapeLike(term[1..]) + pattern);
  }

  /** An escaped term in front of a pattern matches exactly itself. */
  lemma {:induction false} EscapedMatchesItself(fold: char -> char, term: string, pattern: string, text: string)
    ensures Like(fold, EscapeLike(term) + pattern, text) <==>
            |term| <= |text| && SameText(fold, term, text[..|term|]) && Like(fold, pattern, text[|term|..])
  {
    if term == "" {
      assert EscapeLike(term) + pattern == pattern;
      assert text[0..] == text;
    } else {
      EscapeFront(term, pattern);
      var whole := EscapeLike(term) + pattern;
      assert IsSpecial(term[0]) ==> whole[0] == whole[..2][0] && whole[1] == whole[..2][1];
      if text != "" {
        EscapedMatchesItself(fold, term[1..], pattern, text[1..]);
        if |term| <= |text| {
          SameTextSplits(fold, term, text[..|term|]);
          assert text[..|term|][1..] == text[1..][..|term| - 1];
          assert text[1..][|term| - 1..] == text[|term|..];
        }
      }
    }
  }

  lemma SameTextSplits(fold: char -> char, a: string, b: string)
    requires a != "" && |a| == |b|
    ensures SameText(fold, a, b) <==> fold(a[0]) == fold(b[0]) && SameText(fold, a[1..], b[1..])
  {
    if fold(a[0]) == fold(b[0]) && SameText(fold, a[1..], b[1..]) {
      forall i | 0 <= i < |a|
        ensures fold(a[i]) == fold(b[i])
      {
        if i > 0 {
          assert fold(a[1..][i - 1]) == fold(b[1..][i - 1]);
        }
      }
    }
  }

  lemma {:induction false} PercentMatchesAll(fold: char -> char, text: string)
    ensures Like(fold, "%", text)
  {
    if text != "" {
      PercentMatchesAll(fold, text[1..]);
    }
  }

  /** Behind a % the term may start anywhere. */
  lemma {:induction false} PercentSearches(fold: char -> char, term: string, text: string)
    ensures Like(fold, "%" + (EscapeLike(term) + "%"), text) <==> Contains(fold, term, text)
  {
    var rest := EscapeLike(term) + "%";
    assert ("%" + rest)[1..] == rest;
    EscapedMatchesItself(fold, term, "%", text);
    if |term| <= |text| {
      PercentMatchesAll(fold, text[|term|..]);
    }
    assert Like(fold, rest, text) <==> OccursAt(fold, term, text, 0);
    if text != "" {
      PercentSearches(fold, term, text[1..]);
      ContainsLater(fold, term, text);
    } else {
      assert forall i | OccursAt(fold, term, text, i) :: i == 0;
    }
  }

  lemma ContainsLater(fold: char -> char, term: string, text: string)
    requires text != ""
    ensures Contains(fold, term, text) <==> OccursAt(fold, term, text, 0) || Contains(fold, term, text[1..])
  {
    forall i | 0 <= i
      ensures OccursAt(fold, term, text[1..], i) <==> OccursAt(fold, term, text, i + 1)
    {
      if i + |term| < |text| {
        assert text[1..][i..i + |term|] == text[i + 1..i + 1 + |term|];
      }
    }
    if i :| OccursAt(fold, term, text, i) {
      if i > 0 {
        assert OccursAt(fold, term, text[1..], i - 1);
      }
    }
    if i :| OccursAt(fold, term, text[1..], i) {
      assert OccursAt(fold, term, text, i + 1);
    }
  }

  /** Search escaping is exact: the pattern built from any non-empty term accepts exactly the
      texts that contain the term literally, for LIKE and for ILIKE alike. */
  lemma EscapedSearchIsLiteral(fold: char -> char, term: string, text: string)
    requires term != ""
    ensures Like(fold, LikePattern(EscapeLike(term)), text) <==> Contains(fold, term, text)
  {
    PercentSearches(fold, term, text);
    assert "%" + (EscapeLike(term) + "%") == LikePattern(EscapeLike(term));
  }

  /** PostgreSQL never rejects such a pattern for a dangling escape. */
  lemma EscapedPatternIsWellFormed(term: string)
    ensures WellFormed(LikePattern(EscapeLike(term)))
  {
    EscapedPrefixWellFormed(term, "%");
    assert LikePattern(EscapeLike(term)) != "" ==>
             LikePattern(EscapeLike(term))[1..] == EscapeLike(term) + "%";
  }

  lemma {:induction false} EscapedPrefixWellFormed(term: string, pattern: string)
    ensures WellFormed(EscapeLike(term) + pattern) <==> WellFormed(pattern)
  {
    if term == "" {
      assert EscapeLike(term) + pattern == pattern;
    } else {
      EscapedPrefixWellFormed(term[1..], pattern);
      EscapeFront(term, pattern);
      var whole := EscapeLike(term) + pattern;
      assert IsSpecial(term[0]) ==> whole[0] == whole[..2][0];
    }
  }

  // ---- escaping is needed for every term it changes ------------------------------------------

  function Identity(c: char): char { c }

  predicate HasSpecial(term: string) {
    exists c | c in term :: IsSpecial(c)
  }

  /** A text that the raw term followed by % matches: a % stands for nothing, a _ for an x,
      and escapes are carried out - a last backslash escapes the % that follows the term. */
  function Sample(term: string): string
    decreases |term|
  {
    if term == "" then ""
    else if term[0] == '%' then Sample(term[1..])
    else if term[0] == '_' then "x" + Sample(term[1..])
    else if term[0] == '\\' then (if |term| > 1 then [term[1]] + Sample(term[2..]) else "%")
    else [term[0]] + Sample(term[1..])
  }

  function Count(c: char, s: string): nat {
    if s == "" then 0 else (if s[0] == c then 1 else 0) + Count(c, s[1..])
  }

  lemma {:induction false} CountOfConcat(c: char, a: string, b: string)
    ensures Count(c, a + b) == Count(c, a) + Count(c, b)
  {
    if a == "" {
      assert a + b == b;
    } else {
      CountOfConcat(c, a[1..], b);
      assert (a + b)[1..] == a[1..] + b;
    }
  }

  lemma {:induction false} MembersCount(c: char, s: string)
    ensures c in s <==> Count(c, s) > 0
  {
    if s != "" {
      MembersCount(c, s[1..]);
      assert s == [s[0]] + s[1..];
    }
  }

  /** A text holds at least as many of any character as a term it contains. */
  lemma ContainsCounts(term: string, text: string, c: char)
    requires Contains(Identity, term, text)
    ensures Count(c, term) <= Count(c, text)
  {
    var i :| OccursAt(Identity, term, text, i);
    var middle, after := text[i..i + |term|], text[i + |term|..];
    forall k | 0 <= k < |term|
      ensures term[k] == middle[k]
    {
      assert Identity(term[k]) == Identity(middle[k]);
    }
    assert term == middle;
    assert text == text[..i] + (middle + after);
    CountOfConcat(c, text[..i], middle + after);
    CountOfConcat(c, middle, after);
  }

  lemma {:induction false} RawMatchesSample(term: string)
    ensures Like(Identity, term + "%", Sample(term))
    decreases |term|
  {
    var pattern := term + "%";
    if term == "" {
      PercentMatchesAll(Identity, "");
    } else if term[0] == '\\' {
      if |term| > 1 {
        RawMatchesSample(term[2..]);
        assert pattern[2..] == term[2..] + "%";
        assert Sample(term)[1..] == Sample(term[2..]);
      } else {
        assert pattern[2..] == "" && Sample(term)[1..] == "";
      }
    } else {
      RawMatchesSample(term[1..]);
      assert pattern[1..] == term[1..] + "%";
      assert term[0] != '%' ==> Sample(term)[1..] == Sample(term[1..]);
    }
  }

  /** The sample has fewer backslashes than a term with one, and no wildcard otherwise. */
  lemma {:induction false} SampleLosesSpecials(term: string)
    ensures Count('\\', Sample(term)) <= Count('\\', term)
    ensures Count('\\', term) > 0 ==> Count('\\', Sample(term)) < Count('\\', term)
    ensures Count('\\', term) == 0 ==> Count('%', Sample(term)) == 0 && Count('_', Sample(term)) == 0
    decreases |term|
  {
    if term != "" {
      if term[0] == '\\' {
        if |term| > 1 {
          SampleLosesSpecials(term[2..]);
          assert term[1..][1..] == term[2..];
          assert Sample(term)[1..] == Sample(term[2..]);
        } else {
          assert Sample(term)[1..] == "" && term[1..] == "";
        }
      } else {
        SampleLosesSpecials(term[1..]);
        assert term[0] != '%' ==> Sample(term)[1..] == Sample(term[1..]);
      }
    }
  }

  lemma RawSearchFails(term: string)
    requires HasSpecial(term)
    ensures Like(Identity, LikePattern(term), Sample(term)) && !Contains(Identity, term, Sample(term))
  {
    RawMatchesSample(term);
    assert LikePattern(term)[1..] == term + "%";
    SampleLosesSpecials(term);
    MembersCount('\\', term);
    MembersCount('%', term);
    MembersCount('_', term);
    if Contains(Identity, term, Sample(term)) {
      ContainsCounts(term, Sample(term), '\\');
      ContainsCounts(term, Sample(term), '%');
      ContainsCounts(term, Sample(term), '_');
    }
  }

  lemma {:induction false} EscapeOfPlainTerm(term: string)
    requires !HasSpecial(term)
    ensures EscapeLike(term) == term
  {
    if term != "" {
      assert term[0] in term && forall c | c in term[1..] :: c in term;
      EscapeOfPlainTerm(term[1..]);
    }
  }

  /** A raw, unescaped term searches literally exactly when it holds no special character:
      EscapeLike changes precisely the terms that would otherwise go wrong. */
  lemma RawSearchIsLiteralIff(term: string)
    requires term != ""
    ensures (forall text: string :: Like(Identity, LikePattern(term), text) <==> Contains(Identity, term, text))
            <==> !HasSpecial(term)
  {
    if HasSpecial(term) {
      RawSearchFails(term);
    } else {
      EscapeOfPlainTerm(term);
      forall text: string
        ensures Like(Identity, LikePattern(term), text) <==> Contains(Identity, term, text)
      {
        EscapedSearchIsLiteral(Identity, term, text);
      }
    }
  }
}
