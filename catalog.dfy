/** The in-memory catalog of `src/utils/data.ts`: category and artisan records, the seed
    instance, the category filter and the two lookups by id. The lookups and the filter
    are functions of the catalog, so none of them can change it. */
module Catalog {
  import opened Common

  datatype Category = Category(id: string, name: string, icon: string, description: string, count: int)

  datatype Review = Review(author: string, rating: real, comment: string)

  /** An artisan record. The fields after `featured` are optional: some views read
      alternative names (`yearsOfExperience`, `reviews`, `skills`, `specialties`) that the
      seed records do not carry. `rating` is exact: no floating point. */
  datatype Artisan = Artisan(
    id: string,
    name: string,
    category: string,
    categoryId: string,
    rating: real,
    verified: bool,
    featured: bool,
    reviewCount: Option<int>,
    reviews: Option<seq<Review>>,
    yearsExperience: Option<int>,
    yearsOfExperience: Option<int>,
    skills: Option<seq<string>>,
    specialties: Option<seq<string>>)

  /** JavaScript truthiness of a `string | null` id: `null` and `""` are falsy. */
  predicate IsTruthy(id: Option<string>)
  {
    id.Some? && id.value != ""
  }

  function IsFeatured(a: Artisan): bool { a.featured }

  function InCategory(categoryId: string): Artisan -> bool
  {
    (a: Artisan) => a.categoryId == categoryId
  }

  function HasId(id: string): Artisan -> bool
  {
    (a: Artisan) => a.id == id
  }

  function CategoryHasId(id: string): Category -> bool
  {
    (c: Category) => c.id == id
  }

  /** `filterArtisansByCategory`: the featured artisans for a falsy id, otherwise those of
      that category, in catalog order. */
  function FilterByCategory(artisans: seq<Artisan>, categoryId: Option<string>): (r: seq<Artisan>)
    ensures |r| <= |artisans|
  {
    if !IsTruthy(categoryId) then Filter(artisans, IsFeatured)
    else Filter(artisans, InCategory(categoryId.value))
  }

  /** `getArtisanById`: `undefined` for a falsy id, otherwise the first artisan with that id. */
  function GetArtisanById(artisans: seq<Artisan>, id: Option<string>): (r: Option<Artisan>)
    ensures !IsTruthy(id) ==> r.None?
    ensures IsTruthy(id) ==> (r.None? <==> forall j :: 0 <= j < |artisans| ==> artisans[j].id != id.value)
    ensures r.Some? ==> r.value.id == id.value
                        && exists k :: 0 <= k < |artisans| && artisans[k] == r.value
                                       && forall j :: 0 <= j < k ==> artisans[j].id != id.value
  {
    if !IsTruthy(id) then None
    else Find(artisans, HasId(id.value))
  }

  /** `getCategoryById`: the same contract over the categories. */
  function GetCategoryById(categories: seq<Category>, id: Option<string>): (r: Option<Category>)
    ensures !IsTruthy(id) ==> r.None?
    ensures IsTruthy(id) ==> (r.None? <==> forall j :: 0 <= j < |categories| ==> categories[j].id != id.value)
    ensures r.Some? ==> r.value.id == id.value
                        && exists k :: 0 <= k < |categories| && categories[k] == r.value
                                       && forall j :: 0 <= j < k ==> categories[j].id != id.value
  {
    if !IsTruthy(id) then None
    else Find(categories, CategoryHasId(id.value))
  }

  /** A falsy id yields exactly the featured artisans, in catalog order. */
  lemma FeaturedWhenNoCategory(artisans: seq<Artisan>, categoryId: Option<string>, x: Artisan)
    requires !IsTruthy(categoryId)
    ensures x in FilterByCategory(artisans, categoryId) <==> x in artisans && x.featured
    ensures multiset(FilterByCategory(artisans, categoryId))[x] == if x.featured then multiset(artisans)[x] else 0
    ensures IsSubsequence(FilterByCategory(artisans, categoryId), artisans)
  {
    FilterCount(artisans, IsFeatured, x);
    FilterIsSubsequence(artisans, IsFeatured);
  }

  /** A non-empty id yields exactly the artisans of that category, in catalog order. */
  lemma MatchingWhenCategory(artisans: seq<Artisan>, categoryId: string, x: Artisan)
    requires categoryId != ""
    ensures x in FilterByCategory(artisans, Some(categoryId)) <==> x in artisans && x.categoryId == categoryId
    ensures multiset(FilterByCategory(artisans, Some(categoryId)))[x]
         == if x.categoryId == categoryId then multiset(artisans)[x] else 0
    ensures IsSubsequence(FilterByCategory(artisans, Some(categoryId)), artisans)
  {
    FilterCount(artisans, InCategory(categoryId), x);
    FilterIsSubsequence(artisans, InCategory(categoryId));
  }

  /** An id that no artisan carries yields the empty list, not an error. */
  lemma UnknownCategoryIsEmpty(artisans: seq<Artisan>, categoryId: string)
    requires categoryId != ""
    requires forall j :: 0 <= j < |artisans| ==> artisans[j].categoryId != categoryId
    ensures FilterByCategory(artisans, Some(categoryId)) == []
  {
  }

  /** Every artisan with a non-empty category id is listed under its own category. */
  lemma ListedUnderOwnCategory(artisans: seq<Artisan>, k: nat)
    requires k < |artisans| && artisans[k].categoryId != ""
    ensures artisans[k] in FilterByCategory(artisans, Some(artisans[k].categoryId))
  {
  }

  /** Reordering the catalog (as the carousel's in-place sort does) permutes every later
      category listing. */
  lemma FilterByCategoryPermutation(artisans: seq<Artisan>, reordered: seq<Artisan>, categoryId: Option<string>)
    requires multiset(reordered) == multiset(artisans)
    ensures multiset(FilterByCategory(reordered, categoryId)) == multiset(FilterByCategory(artisans, categoryId))
  {
    if !IsTruthy(categoryId) {
      FilterPermutation(reordered, artisans, IsFeatured);
    } else {
      FilterPermutation(reordered, artisans, InCategory(categoryId.value));
    }
  }

  // The seed instance of `src/utils/data.ts` (artisan images, prices and texts omitted).

  const Categories: seq<Category> := [
    Category("plumbing", "Plumbers", "🔧", "Expert plumbers for all your water system needs", 27),
    Category("electrical", "Electricians", "⚡", "Licensed electricians for installations and repairs", 34),
    Category("carpentry", "Carpenters", "🪚", "Skilled carpenters for custom woodwork and repairs", 19),
    Category("painting", "Painters", "🎨", "Professional painters for interior and exterior work", 23),
    Category("gardening", "Gardeners", "🌱", "Experienced gardeners for landscape maintenance", 15),
    Category("cleaning", "Cleaners", "🧹", "Thorough cleaning services for homes and businesses", 41),
    Category("security", "Security", "🔒", "Security system installation and maintenance", 12),
    Category("moving", "Movers", "📦", "Reliable movers for home and office relocations", 9)
  ]

  function SeedArtisan(id: string, name: string, category: string, categoryId: string, rating: real,
                       reviewCount: int, featured: bool, years: int): Artisan
  {
    Artisan(id, name, category, categoryId, rating, true, featured, Some(reviewCount), None,
            Some(years), None, None, None)
  }

  const A1: Artisan := SeedArtisan("a1", "John Nkosi", "Plumber", "plumbing", 4.9, 127, true, 12)
  const A2: Artisan := SeedArtisan("a2", "Thandi Mbeki", "Electrician", "electrical", 4.8, 94, true, 8)
  const A3: Artisan := SeedArtisan("a3", "David Naidoo", "Carpenter", "carpentry", 4.7, 78, false, 15)
  const A4: Artisan := SeedArtisan("a4", "Sophie van Wyk", "Painter", "painting", 4.9, 112, true, 10)
  const A5: Artisan := SeedArtisan("a5", "Sipho Mthembu", "Gardener", "gardening", 4.6, 86, false, 7)
  const A6: Artisan := SeedArtisan("a6", "Lerato Molefe", "Cleaner", "cleaning", 4.8, 156, true, 5)

  const Artisans: seq<Artisan> := [A1, A2, A3, A4, A5, A6]

  /** The listing for a missing category id on the seed catalog: the four featured artisans. */
  lemma SeedFeatured()
    ensures FilterByCategory(Artisans, None) == [A1, A2, A4, A6]
  {
    FeaturedPattern(A1, A2, A3, A4, A5, A6);
  }

  lemma FeaturedPattern(a: Artisan, b: Artisan, c: Artisan, d: Artisan, e: Artisan, f: Artisan)
    requires a.featured && b.featured && !c.featured && d.featured && !e.featured && f.featured
    ensures Filter([a, b, c, d, e, f], IsFeatured) == [a, b, d, f]
  {
    FilterSix(a, b, c, d, e, f, IsFeatured);
  }

  /** A category page on the seed catalog, and a category no artisan belongs to. */
  lemma SeedCategoryPages()
    ensures FilterByCategory(Artisans, Some("plumbing")) == [A1]
    ensures FilterByCategory(Artisans, Some("security")) == []
  {
    var p := InCategory("plumbing");
    assert Filter([A6], p) == [];
    assert Filter([A5, A6], p) == [];
    assert Filter([A4, A5, A6], p) == [];
    assert Filter([A3, A4, A5, A6], p) == [];
    assert Filter([A2, A3, A4, A5, A6], p) == [];
    UnknownCategoryIsEmpty(Artisans, "security");
  }

  /** A successful lookup on the seed catalog. */
  lemma SeedLookupHit()
    ensures GetArtisanById(Artisans, Some("a4")) == Some(A4)
  {
    var isA4 := HasId("a4");
    assert "a1"[1] != "a4"[1] && "a2"[1] != "a4"[1] && "a3"[1] != "a4"[1];
    assert Artisans[3..][0] == A4 && Artisans[2..][1..] == Artisans[3..];
    assert Artisans[1..][1..] == Artisans[2..];
    assert FindIndex(Artisans[3..], isA4) == 0;
    assert FindIndex(Artisans[2..], isA4) == 1;
    assert FindIndex(Artisans[1..], isA4) == 2;
  }

  /** Failed lookups on the seed catalog resolve to `undefined`. */
  lemma SeedLookupMisses()
    ensures GetArtisanById(Artisans, Some("nonexistent")) == None
    ensures GetArtisanById(Artisans, None) == None
    ensures GetCategoryById(Categories, Some("")) == None
  {
  }
}
