/** The title filter of the catalog listing: by name (case-insensitive
    substring), by year, by genre slug and by category slug. */
module Filters {
  import opened Common
  import opened Models
  import opened Validators

  /** The query parameters; a parameter left out or blank is not applied. */
  datatype TitleFilter = TitleFilter(
    name: Option<string>,
    year: Option<int>,
    genre: Option<string>,
    category: Option<string>)

  /** Case folding, restricted to ASCII letters. */
  function Lower(c: char): char {
    if IsUpper(c) then (c as int + 32) as char else c
  }

  predicate IsUpper(c: char) {
    'A' <= c <= 'Z'
  }

  /** Lower-cases every character: the result has no upper-case letter,
      and a string without one is left as it is. */
  function LowerString(s: string): (r: string)
    ensures |r| == |s|
    ensures forall i :: 0 <= i < |s| ==> r[i] == Lower(s[i])
    ensures forall i :: 0 <= i < |r| ==> !IsUpper(r[i])
    ensures (forall i :: 0 <= i < |s| ==> !IsUpper(s[i])) ==> r == s
  {
    seq(|s|, i requires 0 <= i < |s| => Lower(s[i]))
  }

  /** `q` occurs in `s` as a contiguous run. */
  function Contains(s: string, q: string): bool {
    q <= s || (s != [] && Contains(s[1..], q))
  }

  /** `q` occurs in `s` starting at offset `i`. */
  predicate OccursAt(s: string, q: string, i: int) {
    0 <= i <= |s| - |q| && s[i..i + |q|] == q
  }

  lemma SliceOfTail(s: string, i: nat, n: nat)
    requires s != [] && i + n <= |s| - 1
    ensures s[1..][i..i + n] == s[i + 1..i + 1 + n]
  {
    var t := s[1..][i..i + n];
    assert forall k :: 0 <= k < n ==> t[k] == s[i + 1 + k];
  }

  /** An occurrence found by Contains has an offset. */
  lemma {:induction false} ContainsHasOffset(s: string, q: string)
    requires Contains(s, q)
    ensures exists i :: OccursAt(s, q, i)
  {
    if q <= s {
      assert OccursAt(s, q, 0);
    } else {
      ContainsHasOffset(s[1..], q);
      var i :| OccursAt(s[1..], q, i);
      SliceOfTail(s, i, |q|);
      assert OccursAt(s, q, i + 1);
    }
  }

  /** An occurrence at any offset is found by Contains. */
  lemma {:induction false} OffsetIsContained(s: string, q: string, i: int)
    requires OccursAt(s, q, i)
    ensures Contains(s, q)
  {
    if i == 0 {
      assert q <= s;
    } else {
      SliceOfTail(s, i - 1, |q|);
      OffsetIsContained(s[1..], q, i - 1);
    }
  }

  /** Contains is substring occurrence at some offset. */
  lemma ContainsIff(s: string, q: string)
    ensures Contains(s, q) <==> exists i :: OccursAt(s, q, i)
  {
    if Contains(s, q) {
      ContainsHasOffset(s, q);
    }
    if exists i :: OccursAt(s, q, i) {
      var i :| OccursAt(s, q, i);
      OffsetIsContained(s, q, i);
    }
  }

  /** A character query is applied when present and not blank after trimming. */
  predicate Applied(v: Option<string>) {
    v.Some? && Strip(v.value) != []
  }

  /** The conjunction of the applied filters. */
  predicate Matches(f: TitleFilter, t: Title) {
    && (Applied(f.name) ==> Contains(LowerString(t.name), LowerString(Strip(f.name.value))))
    && (f.year.Some? ==> t.year == f.year.value)
    && (Applied(f.genre) ==> Strip(f.genre.value) in t.genres)
    && (Applied(f.category) ==> t.category == Some(Strip(f.category.value)))
  }

  /** Lower-casing twice is lower-casing once. */
  lemma LowerStringIdempotent(s: string)
    ensures LowerString(LowerString(s)) == LowerString(s)
  {
  }

  /** A title passes the filter exactly when the lower-cased name query
      occurs at some offset of its lower-cased name, its year is the year
      queried, it has the genre queried and its category is the one queried
      (each when that parameter is applied). */
  lemma {:induction false} MatchesMeaning(f: TitleFilter, t: Title)
    ensures Matches(f, t) <==>
            && (Applied(f.name) ==> exists i :: OccursAt(LowerString(t.name), LowerString(Strip(f.name.value)), i))
            && (f.year.Some? ==> t.year == f.year.value)
            && (Applied(f.genre) ==> Strip(f.genre.value) in t.genres)
            && (Applied(f.category) ==> t.category == Some(Strip(f.category.value)))
  {
    if Applied(f.name) {
      ContainsIff(LowerString(t.name), LowerString(Strip(f.name.value)));
    }
  }

  lemma MatchesMeaningAll(titles: map<nat, Title>, f: TitleFilter)
    ensures forall id :: id in titles ==>
            (Matches(f, titles[id]) <==>
            && (Applied(f.name) ==> exists i :: OccursAt(LowerString(titles[id].name), LowerString(Strip(f.name.value)), i))
            && (f.year.Some? ==> titles[id].year == f.year.value)
            && (Applied(f.genre) ==> Strip(f.genre.value) in titles[id].genres)
            && (Applied(f.category) ==> titles[id].category == Some(Strip(f.category.value))))
  {
    forall id | id in titles {
      MatchesMeaning(f, titles[id]);
    }
  }

  /** The ids of the titles the filter keeps: those whose name contains the
      name query regardless of case, whose year is the year queried, that
      have the genre queried and whose category is the one queried. */
  function Select(titles: map<nat, Title>, f: TitleFilter): (r: set<nat>)
    ensures r <= titles.Keys
    ensures forall id :: id in titles ==>
            (id in r <==>
            && (Applied(f.name) ==> exists i :: OccursAt(LowerString(titles[id].name), LowerString(Strip(f.name.value)), i))
            && (f.year.Some? ==> titles[id].year == f.year.value)
            && (Applied(f.genre) ==> Strip(f.genre.value) in titles[id].genres)
            && (Applied(f.category) ==> titles[id].category == Some(Strip(f.category.value))))
  {
    MatchesMeaningAll(titles, f);
    set id | id in titles && Matches(f, titles[id])
  }

  /** With only a name query, a title is kept exactly when the lower-cased
      query occurs in its lower-cased name. */
  lemma NameFilterIsSubstring(t: Title, q: string)
    requires Strip(q) != []
    ensures var lq, ln := LowerString(Strip(q)), LowerString(t.name);
            Matches(TitleFilter(Some(q), None, None, None), t) <==>
            exists i :: OccursAt(ln, lq, i)
  {
    ContainsIff(LowerString(t.name), LowerString(Strip(q)));
  }

  /** Case folding never turns whitespace into a letter or back. */
  lemma LowerKeepsSpace(c: char)
    ensures IsSpace(Lower(c)) == IsSpace(c)
  {
  }

  /** Dropping leading whitespace commutes with case folding. */
  lemma {:induction false} TrimStartLower(s: string)
    ensures TrimStart(LowerString(s)) == LowerString(TrimStart(s))
  {
    if s != [] {
      LowerKeepsSpace(s[0]);
      if IsSpace(s[0]) {
        assert LowerString(s)[1..] == LowerString(s[1..]);
        TrimStartLower(s[1..]);
      }
    }
  }

  /** Dropping trailing whitespace commutes with case folding. */
  lemma {:induction false} TrimEndLower(s: string)
    ensures TrimEnd(LowerString(s)) == LowerString(TrimEnd(s))
  {
    if s != [] {
      LowerKeepsSpace(s[|s| - 1]);
      if IsSpace(s[|s| - 1]) {
        assert LowerString(s)[..|s| - 1] == LowerString(s[..|s| - 1]);
        TrimEndLower(s[..|s| - 1]);
      }
    }
  }

  /** Trimming commutes with case folding. */
  lemma StripLower(s: string)
    ensures Strip(LowerString(s)) == LowerString(Strip(s))
  {
    TrimStartLower(s);
    TrimEndLower(TrimStart(s));
  }

  /** Queries that differ only in the case of ASCII letters select the same
      titles, blank queries included. */
  lemma NameFilterIgnoresCase(t: Title, q: string, q': string)
    requires LowerString(q) == LowerString(q')
    ensures Matches(TitleFilter(Some(q), None, None, None), t) == Matches(TitleFilter(Some(q'), None, None, None), t)
  {
    StripLower(q);
    StripLower(q');
    LowerStringIdempotent(Strip(q));
    LowerStringIdempotent(Strip(q'));
  }

  /** The year filter keeps exactly the titles of that year. */
  lemma YearFilterIsEquality(t: Title, y: int)
    ensures Matches(TitleFilter(None, Some(y), None, None), t) <==> t.year == y
  {
  }

  /** A title without category never matches a category query. */
  lemma NullCategoryNeverMatches(t: Title, f: TitleFilter)
    requires t.category.None? && Applied(f.category)
    ensures !Matches(f, t)
  {
  }

  /** The genre filter keeps the titles that have a genre with that slug. */
  lemma GenreFilterIsMembership(t: Title, g: string)
    requires Strip(g) != []
    ensures Matches(TitleFilter(None, None, Some(g), None), t) <==> Strip(g) in t.genres
  {
  }

  /** Without parameters every title is listed. */
  lemma EmptyFilterKeepsAll(titles: map<nat, Title>)
    ensures Select(titles, TitleFilter(None, None, None, None)) == titles.Keys
  {
  }
}
