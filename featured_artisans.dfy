/** The home page's featured section (`src/components/home/FeaturedArtisans.tsx`): the
    featured artisans, the first two of them in a large grid, and catalog entries 2 to 5
    in a second grid. */
module FeaturedArtisans {
  import opened Common
  import opened Catalog

  /** `artisans.filter(artisan => artisan.featured)`. */
  function Featured(artisans: seq<Artisan>): seq<Artisan>
  {
    Filter(artisans, IsFeatured)
  }

  /** `featuredArtisans.slice(0, 2)`. */
  function FirstGrid(artisans: seq<Artisan>): seq<Artisan>
  {
    Slice(Featured(artisans), 0, 2)
  }

  /** `artisans.slice(2, 6)`: taken from the catalog, not from the featured list. */
  function SecondGrid(artisans: seq<Artisan>): seq<Artisan>
  {
    Slice(artisans, 2, 6)
  }

  /** The featured list is the same list the category filter gives for no category, so
      it holds exactly the featured artisans in catalog order. */
  lemma FeaturedIsDefaultListing(artisans: seq<Artisan>, x: Artisan)
    ensures Featured(artisans) == FilterByCategory(artisans, None)
    ensures multiset(Featured(artisans))[x] == if x.featured then multiset(artisans)[x] else 0
    ensures IsSubsequence(Featured(artisans), artisans)
  {
    FeaturedWhenNoCategory(artisans, None, x);
  }

  /** The first grid shows the first min(2, #featured) featured artisans, all featured. */
  lemma FirstGridShape(artisans: seq<Artisan>)
    ensures var first := FirstGrid(artisans);
            && |first| == Min(2, |Featured(artisans)|)
            && first == Featured(artisans)[..|first|]
            && forall i :: 0 <= i < |first| ==> first[i].featured
  {
  }

  /** The second grid shows catalog indices 2 .. min(6, n) - 1: at most four entries. */
  lemma SecondGridShape(artisans: seq<Artisan>)
    ensures var second := SecondGrid(artisans);
            && |second| == Max(0, Min(6, |artisans|) - 2)
            && |second| <= 4
            && forall i :: 0 <= i < |second| ==> second[i] == artisans[i + 2]
  {
  }

  /** The second grid ignores the `featured` flag, so it can repeat an artisan already
      shown in the first grid: here the only featured artisan sits at index 2. */
  lemma SecondGridMayRepeat(x: Artisan, y: Artisan, z: Artisan)
    requires !x.featured && !y.featured && z.featured
    ensures FirstGrid([x, y, z]) == [z]
    ensures SecondGrid([x, y, z]) == [z]
  {
    assert [x, y, z][1..] == [y, z] && [y, z][1..] == [z];
    assert Filter([z], IsFeatured) == [z];
    assert Filter([y, z], IsFeatured) == [z];
    assert Featured([x, y, z]) == [z];
  }

  /** On the seed catalog the two grids are disjoint. */
  lemma SeedGrids()
    ensures FirstGrid(Artisans) == [A1, A2]
    ensures SecondGrid(Artisans) == [A3, A4, A5, A6]
  {
    SeedFeatured();
  }
}
