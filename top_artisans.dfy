/** The "Top rated artisans" carousel (`src/components/home/TopArtisansCarousel.tsx`).
    It sorts the SHARED catalog array in place by rating and shows the first eight; each
    card formats the category label, falls back from `reviewCount` to `reviews.length`,
    and shows at most three tag badges. */
module TopArtisans {
  import opened Common
  import opened Sorting
  import opened Catalog

  /** The carousel's comparator `(a, b) => b.rating - a.rating` is negative. */
  function HigherRated(a: Artisan, b: Artisan): bool
  {
    b.rating - a.rating < 0.0
  }

  /** The carousel's selection, as a function of the catalog before the sort. */
  function TopRated(artisans: seq<Artisan>): seq<Artisan>
  {
    Slice(Sort(artisans, HigherRated), 0, 8)
  }

  /** `artisans.sort((a, b) => b.rating - a.rating).slice(0, 8)`: reorders the catalog
      itself, then copies its first eight entries. */
  method SelectTopArtisans(catalog: array<Artisan>) returns (top: seq<Artisan>)
    modifies catalog
    ensures catalog[..] == Sort(old(catalog[..]), HigherRated)
    ensures multiset(catalog[..]) == multiset(old(catalog[..]))
    ensures forall i, j :: 0 <= i < j < catalog.Length ==> catalog[i].rating >= catalog[j].rating
    ensures top == TopRated(old(catalog[..]))
  {
    ghost var before := catalog[..];
    SortInPlace(catalog, HigherRated);
    SortPermutes(before, HigherRated);
    SortSorted(before, HigherRated);
    assert Sorted(catalog[..], HigherRated);
    top := Slice(catalog[..], 0, 8);
  }

  /** The evidently intended selection: sort a copy, so the shared catalog keeps its
      order and later listings are not affected. */
  method SelectTopArtisansFromCopy(catalog: array<Artisan>) returns (top: seq<Artisan>)
    ensures top == TopRated(catalog[..])
    ensures |top| == Min(8, catalog.Length)
  {
    var copy := new Artisan[catalog.Length](i requires 0 <= i < catalog.Length reads catalog => catalog[i]);
    assert copy[..] == catalog[..];
    SortInPlace(copy, HigherRated);
    top := Slice(copy[..], 0, 8);
    TopRatedLength(catalog[..]);
  }

  /** The carousel shows min(8, n) artisans. */
  lemma TopRatedLength(artisans: seq<Artisan>)
    ensures |TopRated(artisans)| == Min(8, |artisans|)
  {
    SortPermutes(artisans, HigherRated);
  }

  /** The shown ratings never increase. */
  lemma TopRatedOrdered(artisans: seq<Artisan>)
    ensures var top := TopRated(artisans);
            forall i, j :: 0 <= i < j < |top| ==> top[i].rating >= top[j].rating
  {
    var sorted := Sort(artisans, HigherRated);
    SortSorted(artisans, HigherRated);
    assert forall i, j :: 0 <= i < j < |sorted| ==> !HigherRated(sorted[j], sorted[i]);
  }

  lemma RatedBelow(sorted: seq<Artisan>, k: nat, x: Artisan, y: Artisan)
    requires Sorted(sorted, HigherRated) && k <= |sorted|
    requires x in sorted[k..] && y in sorted[..k]
    ensures x.rating <= y.rating
  {
    var jx :| 0 <= jx < |sorted[k..]| && sorted[k..][jx] == x;
    var iy :| 0 <= iy < k && sorted[..k][iy] == y;
    assert !HigherRated(sorted[k + jx], sorted[iy]);
  }

  /** What is left out of a prefix is the rest of the list. */
  lemma LeftOut(artisans: seq<Artisan>, sorted: seq<Artisan>, k: nat)
    requires multiset(sorted) == multiset(artisans) && k <= |sorted|
    ensures multiset(artisans) - multiset(sorted[..k]) == multiset(sorted[k..])
  {
    assert sorted == sorted[..k] + sorted[k..];
    assert multiset(sorted) == multiset(sorted[..k]) + multiset(sorted[k..]);
  }

  /** Every artisan left out is rated no higher than every artisan shown. */
  lemma TopRatedAreBest(artisans: seq<Artisan>)
    ensures var top := TopRated(artisans);
            forall x, y :: x in multiset(artisans) - multiset(top) && y in top ==> x.rating <= y.rating
  {
    var sorted := Sort(artisans, HigherRated);
    SortPermutes(artisans, HigherRated);
    SortSorted(artisans, HigherRated);
    var k := Min(8, |sorted|);
    assert TopRated(artisans) == sorted[..k];
    LeftOut(artisans, sorted, k);
    forall x: Artisan, y: Artisan | x in multiset(sorted[k..]) && y in sorted[..k]
      ensures x.rating <= y.rating
    {
      RatedBelow(sorted, k, x, y);
    }
  }

  /** On the seed catalog the carousel's sort puts the two 4.9 artisans first and keeps
      ties in catalog order. Once it has run, every later reader of the shared array sees
      the new order: the featured listing changes from a1, a2, a4, a6 to a1, a4, a2, a6. */
  lemma SeedCarousel()
    ensures Sort(Artisans, HigherRated) == [A1, A4, A2, A6, A3, A5]
    ensures FilterByCategory([A1, A4, A2, A6, A3, A5], None) == [A1, A4, A2, A6]
    ensures FilterByCategory(Artisans, None) == [A1, A2, A4, A6]
  {
    SeedSortPrefix();
    assert Artisans[..5] == [A1, A2, A3, A4, A5] && Artisans[..5][..4] == [A1, A2, A3, A4];
    assert Sort(Artisans[..5], HigherRated) == [A1, A4, A2, A3, A5];
    assert Insert([A1, A4, A2], A6, HigherRated) == [A1, A4, A2, A6];
    assert Insert([A1, A4, A2, A3], A6, HigherRated) == [A1, A4, A2, A6, A3] by {
      assert [A1, A4, A2, A3][..3] == [A1, A4, A2];
    }
    assert Insert([A1, A4, A2, A3, A5], A6, HigherRated) == [A1, A4, A2, A6, A3, A5] by {
      assert [A1, A4, A2, A3, A5][..4] == [A1, A4, A2, A3];
    }
    SeedFeatured();
    SortedSeedFeatured();
  }

  lemma SeedSortPrefix()
    ensures Sort([A1, A2, A3, A4], HigherRated) == [A1, A4, A2, A3]
  {
    SortFour(A1, A2, A3, A4);
  }

  /** Four artisans where the fourth ties with the first and outranks the other two. */
  lemma SortFour(a: Artisan, b: Artisan, c: Artisan, d: Artisan)
    requires a.rating == d.rating && b.rating < a.rating && c.rating < b.rating
    ensures Sort([a, b, c, d], HigherRated) == [a, d, b, c]
  {
    assert [a, b, c, d][..3] == [a, b, c] && [a, b, c][..2] == [a, b] && [a, b][..1] == [a];
    assert [a][..0] == [];
    assert Sort([a], HigherRated) == [a];
    assert Sort([a, b], HigherRated) == [a, b];
    assert Sort([a, b, c], HigherRated) == [a, b, c];
    assert [a, b, c][..1] == [a];
    assert Insert([a], d, HigherRated) == [a, d];
    assert Insert([a, b], d, HigherRated) == [a, d, b];
  }

  lemma SortedSeedFeatured()
    ensures Filter([A1, A4, A2, A6, A3, A5], IsFeatured) == [A1, A4, A2, A6]
  {
    FeaturedFirst(A1, A4, A2, A6, A3, A5);
  }

  lemma FeaturedFirst(a: Artisan, b: Artisan, c: Artisan, d: Artisan, e: Artisan, f: Artisan)
    requires a.featured && b.featured && c.featured && d.featured && !e.featured && !f.featured
    ensures Filter([a, b, c, d, e, f], IsFeatured) == [a, b, c, d]
  {
    FilterSix(a, b, c, d, e, f, IsFeatured);
  }

  /** ASCII `toUpperCase` of one character. */
  function Upper(c: char): char
  {
    if 'a' <= c <= 'z' then (c as int - 32) as char else c
  }

  /** `word.charAt(0).toUpperCase() + word.slice(1)`. */
  function Capitalize(w: string): (r: string)
    ensures |r| == |w|
  {
    if w == [] then [] else [Upper(w[0])] + w[1..]
  }

  function CapitalizeEach(words: seq<string>): (r: seq<string>)
    ensures |r| == |words|
    ensures forall i :: 0 <= i < |r| ==> r[i] == Capitalize(words[i])
  {
    if words == [] then [] else [Capitalize(words[0])] + CapitalizeEach(words[1..])
  }

  function IsSeparator(sep: char): char -> bool
  {
    c => c == sep
  }

  /** `s.split(sep)` for a one-character separator: empty pieces are kept. */
  function Split(s: string, sep: char): (parts: seq<string>)
    ensures |parts| >= 1
    decreases |s|
  {
    var k := FindIndex(s, IsSeparator(sep));
    if k == |s| then [s] else [s[..k]] + Split(s[k + 1..], sep)
  }

  /** `parts.join(sep)`. */
  function Join(parts: seq<string>, sep: char): string
  {
    if parts == [] then ""
    else if |parts| == 1 then parts[0]
    else parts[0] + [sep] + Join(parts[1..], sep)
  }

  /** The category label: a category containing '-' is split on it, each piece is
      capitalised, and the pieces are joined by spaces; any other category is shown as is. */
  function CategoryLabel(category: string): string
  {
    if '-' in category then Join(CapitalizeEach(Split(category, '-')), ' ')
    else category
  }

  /** What the hyphenated formatting does to each character: '-' becomes ' ', the first
      character of every piece is upper-cased, the rest is kept. */
  ghost predicate FormattedAt(s: string, r: string, i: int)
    requires 0 <= i < |s| && |r| == |s|
  {
    r[i] == if s[i] == '-' then ' '
            else if i == 0 || s[i - 1] == '-' then Upper(s[i])
            else s[i]
  }

  lemma {:induction false} FormatPieces(s: string)
    ensures var r := Join(CapitalizeEach(Split(s, '-')), ' ');
            |r| == |s| && forall i :: 0 <= i < |s| ==> FormattedAt(s, r, i)
    decreases |s|
  {
    var k := FindIndex(s, IsSeparator('-'));
    var r := Join(CapitalizeEach(Split(s, '-')), ' ');
    if k == |s| {
      assert r == Capitalize(s);
    } else {
      var head, tail := s[..k], s[k + 1..];
      FormatPieces(tail);
      var rest := CapitalizeEach(Split(tail, '-'));
      assert CapitalizeEach(Split(s, '-')) == [Capitalize(head)] + rest;
      assert r == Capitalize(head) + [' '] + Join(rest, ' ');
      FormatStep(s, k, tail, Join(rest, ' '));
    }
  }

  /** Formatting the first piece and the separator, given the formatted remainder. */
  lemma FormatStep(s: string, k: nat, tail: string, rest: string)
    requires k < |s| && s[k] == '-' && tail == s[k + 1..]
    requires forall j :: 0 <= j < k ==> s[j] != '-'
    requires |rest| == |tail|
    requires forall i :: 0 <= i < |rest| ==> FormattedAt(tail, rest, i)
    ensures var r := Capitalize(s[..k]) + [' '] + rest;
            |r| == |s| && forall i :: 0 <= i < |s| ==> FormattedAt(s, r, i)
  {
    var r := Capitalize(s[..k]) + [' '] + rest;
    forall i | 0 <= i < |s| ensures FormattedAt(s, r, i) {
      if i > k {
        assert FormattedAt(tail, rest, i - k - 1);
      }
    }
  }

  /** A category without '-' is displayed unchanged; a hyphenated one keeps its length,
      loses every '-', and has the first character of every piece upper-cased. */
  lemma CategoryLabelFormat(category: string)
    ensures '-' !in category ==> CategoryLabel(category) == category
    ensures '-' in category ==>
              var r := CategoryLabel(category);
              && |r| == |category|
              && '-' !in r
              && forall i :: 0 <= i < |category| ==> FormattedAt(category, r, i)
  {
    if '-' in category {
      var r := CategoryLabel(category);
      FormatPieces(category);
      forall i | 0 <= i < |r| ensures r[i] != '-' {
        assert FormattedAt(category, r, i);
      }
    }
  }

  /** `artisan.reviewCount || artisan.reviews.length`; `None` stands for the TypeError
      thrown when `reviewCount` is 0 or absent and `reviews` is absent too. */
  function ShownReviewCount(a: Artisan): (r: Option<int>)
    ensures a.reviewCount.Some? && a.reviewCount.value != 0 ==> r == a.reviewCount
    ensures (a.reviewCount.None? || a.reviewCount.value == 0) && a.reviews.Some?
            ==> r == Some(|a.reviews.value|)
    ensures r.None? <==> (a.reviewCount.None? || a.reviewCount.value == 0) && a.reviews.None?
    ensures r.Some? && (a.reviewCount.None? || a.reviewCount.value >= 0) ==> r.value >= 0
  {
    if a.reviewCount.Some? && a.reviewCount.value != 0 then a.reviewCount
    else if a.reviews.Some? then Some(|a.reviews.value|)
    else None
  }

  /** The tag badges: up to three `specialties` when the field is present, otherwise up
      to three capitalised `skills`, otherwise none. */
  function TagBadges(a: Artisan): (r: seq<string>)
    ensures |r| <= 3
    ensures a.specialties.Some? ==> r == a.specialties.value[..Min(3, |a.specialties.value|)]
    ensures a.specialties.None? && a.skills.Some? ==>
              |r| == Min(3, |a.skills.value|)
              && forall i :: 0 <= i < |r| ==> r[i] == Capitalize(a.skills.value[i])
    ensures a.specialties.None? && a.skills.None? ==> r == []
  {
    if a.specialties.Some? then Slice(a.specialties.value, 0, 3)
    else if a.skills.Some? then CapitalizeEach(Slice(a.skills.value, 0, 3))
    else []
  }
}
