/** The "All artisans" page (`src/pages/AllArtisans.tsx`): an optional verified-only
    filter followed by a stable sort on one of three keys. `filter` returns a fresh
    array, so the catalog itself is not reordered. */
module AllArtisans {
  import opened Common
  import opened Sorting
  import opened Catalog

  datatype SortKey = ByRating | ByName | ByExperience

  /** `String.prototype.localeCompare`, kept abstract: any comparison whose sign is
      antisymmetric and whose "not after" relation is transitive, i.e. a total preorder. */
  ghost predicate IsCollation(collate: (string, string) -> int)
  {
    && (forall a, b :: collate(a, b) < 0 <==> collate(b, a) > 0)
    && (forall a, b, c :: collate(a, b) <= 0 && collate(b, c) <= 0 ==> collate(a, c) <= 0)
  }

  /** `yearsExperience || yearsOfExperience || 0`: a missing or zero field is skipped. */
  function ExperienceYears(a: Artisan): (r: int)
    ensures a.yearsExperience.Some? && a.yearsExperience.value != 0 ==> r == a.yearsExperience.value
    ensures (a.yearsExperience.None? || a.yearsExperience.value == 0) && a.yearsOfExperience.Some?
            ==> r == a.yearsOfExperience.value
    ensures r != 0 ==> a.yearsExperience == Some(r) || a.yearsOfExperience == Some(r)
  {
    if a.yearsExperience.Some? && a.yearsExperience.value != 0 then a.yearsExperience.value
    else if a.yearsOfExperience.Some? && a.yearsOfExperience.value != 0 then a.yearsOfExperience.value
    else 0
  }

  /** The comparator handed to `sort`: negative when `a` must come before `b`. */
  function Compare(sortBy: SortKey, collate: (string, string) -> int, a: Artisan, b: Artisan): real
  {
    match sortBy
    case ByRating => b.rating - a.rating
    case ByName => collate(a.name, b.name) as real
    case ByExperience => (ExperienceYears(b) - ExperienceYears(a)) as real
  }

  function Less(sortBy: SortKey, collate: (string, string) -> int): (Artisan, Artisan) -> bool
  {
    (a: Artisan, b: Artisan) => Compare(sortBy, collate, a, b) < 0.0
  }

  function Keep(filterVerified: bool): Artisan -> bool
  {
    (a: Artisan) => !filterVerified || a.verified
  }

  /** `filteredAndSortedArtisans`. */
  function FilteredAndSorted(artisans: seq<Artisan>, filterVerified: bool, sortBy: SortKey,
                             collate: (string, string) -> int): seq<Artisan>
  {
    Sort(Filter(artisans, Keep(filterVerified)), Less(sortBy, collate))
  }

  /** Every comparator of the page is consistent (the name order given a collation). */
  lemma ComparatorConsistent(sortBy: SortKey, collate: (string, string) -> int)
    requires sortBy == ByName ==> IsCollation(collate)
    ensures StrictWeakOrder(Less(sortBy, collate))
  {
    var less := Less(sortBy, collate);
    if sortBy == ByName {
      forall x, y, z | !less(x, y) && !less(y, z) ensures !less(x, z) {
        assert collate(y.name, x.name) <= 0;
        assert collate(z.name, y.name) <= 0;
      }
    }
  }

  /** The page lists exactly the verified artisans when the filter is on, and every
      artisan otherwise, each as often as in the catalog. */
  lemma ListedArtisans(artisans: seq<Artisan>, filterVerified: bool, sortBy: SortKey,
                       collate: (string, string) -> int, x: Artisan)
    ensures multiset(FilteredAndSorted(artisans, filterVerified, sortBy, collate))[x]
         == if !filterVerified || x.verified then multiset(artisans)[x] else 0
    ensures x in FilteredAndSorted(artisans, filterVerified, sortBy, collate)
        <==> x in artisans && (!filterVerified || x.verified)
  {
    var filtered := Filter(artisans, Keep(filterVerified));
    SortPermutes(filtered, Less(sortBy, collate));
    FilterCount(artisans, Keep(filterVerified), x);
  }

  /** The sort permutes the filtered list; in "Showing N of M", N <= M, with N == M
      when the verified-only filter is off. */
  lemma ShowingCount(artisans: seq<Artisan>, filterVerified: bool, sortBy: SortKey,
                     collate: (string, string) -> int)
    ensures multiset(FilteredAndSorted(artisans, filterVerified, sortBy, collate))
         == multiset(Filter(artisans, Keep(filterVerified)))
    ensures |FilteredAndSorted(artisans, filterVerified, sortBy, collate)| <= |artisans|
    ensures !filterVerified ==> |FilteredAndSorted(artisans, filterVerified, sortBy, collate)| == |artisans|
  {
    var filtered := Filter(artisans, Keep(filterVerified));
    SortPermutes(filtered, Less(sortBy, collate));
    if !filterVerified {
      forall x ensures multiset(filtered)[x] == multiset(artisans)[x] {
        FilterCount(artisans, Keep(filterVerified), x);
      }
      assert multiset(filtered) == multiset(artisans);
      assert |filtered| == |multiset(filtered)|;
    }
  }

  function RatedAs(v: real): Artisan -> bool
  {
    (a: Artisan) => a.rating == v
  }

  /** Whatever the key, artisans the comparator ranks equal keep their catalog order. */
  lemma PageStable(artisans: seq<Artisan>, filterVerified: bool, sortBy: SortKey,
                   collate: (string, string) -> int, y: Artisan)
    requires sortBy == ByName ==> IsCollation(collate)
    ensures Ties(FilteredAndSorted(artisans, filterVerified, sortBy, collate), Less(sortBy, collate), y)
         == Ties(Filter(artisans, Keep(filterVerified)), Less(sortBy, collate), y)
  {
    ComparatorConsistent(sortBy, collate);
    SortStable(Filter(artisans, Keep(filterVerified)), Less(sortBy, collate), y);
  }

  /** Sorting by rating: ratings never increase along the page, and artisans with equal
      ratings keep their catalog order. */
  lemma RatingOrder(artisans: seq<Artisan>, filterVerified: bool, collate: (string, string) -> int, v: real)
    ensures var r := FilteredAndSorted(artisans, filterVerified, ByRating, collate);
            forall i, j :: 0 <= i < j < |r| ==> r[i].rating >= r[j].rating
    ensures Filter(FilteredAndSorted(artisans, filterVerified, ByRating, collate), RatedAs(v))
         == Filter(Filter(artisans, Keep(filterVerified)), RatedAs(v))
  {
    var filtered := Filter(artisans, Keep(filterVerified));
    RatingsNonIncreasing(filtered, collate);
    EqualRatingsStable(filtered, collate, v);
  }

  lemma RatingsNonIncreasing(filtered: seq<Artisan>, collate: (string, string) -> int)
    ensures var r := Sort(filtered, Less(ByRating, collate));
            forall i, j :: 0 <= i < j < |r| ==> r[i].rating >= r[j].rating
  {
    var less := Less(ByRating, collate);
    var r := Sort(filtered, less);
    ComparatorConsistent(ByRating, collate);
    SortSorted(filtered, less);
    assert forall i, j :: 0 <= i < j < |r| ==> !less(r[j], r[i]);
  }

  lemma EqualRatingsStable(filtered: seq<Artisan>, collate: (string, string) -> int, v: real)
    ensures Filter(Sort(filtered, Less(ByRating, collate)), RatedAs(v)) == Filter(filtered, RatedAs(v))
  {
    var less := Less(ByRating, collate);
    var r := Sort(filtered, less);
    ComparatorConsistent(ByRating, collate);
    var x := Artisan("", "", "", "", v, false, false, None, None, None, None, None, None);
    SortStable(filtered, less, x);
    FilterSamePredicate(r, TiedWith(less, x), RatedAs(v));
    FilterSamePredicate(filtered, TiedWith(less, x), RatedAs(v));
  }

  /** Sorting by name: every adjacent pair is in `localeCompare` order. */
  lemma NameOrder(artisans: seq<Artisan>, filterVerified: bool, collate: (string, string) -> int)
    requires IsCollation(collate)
    ensures var r := FilteredAndSorted(artisans, filterVerified, ByName, collate);
            forall i :: 0 <= i < |r| - 1 ==> collate(r[i].name, r[i + 1].name) <= 0
  {
    var less := Less(ByName, collate);
    var filtered := Filter(artisans, Keep(filterVerified));
    var r := Sort(filtered, less);
    ComparatorConsistent(ByName, collate);
    SortSorted(filtered, less);
    forall i | 0 <= i < |r| - 1 ensures collate(r[i].name, r[i + 1].name) <= 0 {
      assert !less(r[i + 1], r[i]);
    }
  }

  /** Sorting by experience: the fallback key never increases along the page. */
  lemma ExperienceOrder(artisans: seq<Artisan>, filterVerified: bool, collate: (string, string) -> int)
    ensures var r := FilteredAndSorted(artisans, filterVerified, ByExperience, collate);
            forall i, j :: 0 <= i < j < |r| ==> ExperienceYears(r[i]) >= ExperienceYears(r[j])
  {
    var less := Less(ByExperience, collate);
    var filtered := Filter(artisans, Keep(filterVerified));
    var r := Sort(filtered, less);
    ComparatorConsistent(ByExperience, collate);
    SortSorted(filtered, less);
    assert forall i, j :: 0 <= i < j < |r| ==> !less(r[j], r[i]);
  }
}
