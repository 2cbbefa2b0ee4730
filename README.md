# Artisan marketplace front end: catalog, listings, carousel, bookings, stars

This project is a Dafny model of the logic inside a small artisan-marketplace web front
end (React/TypeScript). It covers six parts:

- The in-memory catalog (`src/utils/data.ts`): categories and artisans, the seed data,
  the filter by category, and the two lookups by id (module `Catalog`).
- The "All artisans" page (`src/pages/AllArtisans.tsx`): an optional verified-only
  filter, then a stable sort by rating, name or years of experience (module `AllArtisans`).
- The top-rated carousel (`src/components/home/TopArtisansCarousel.tsx`) in module
  `TopArtisans`; no page in this source tree mounts it. It sorts the shared catalog array
  in place and shows the first eight entries. Each card formats the category label,
  falls back from `reviewCount` to `reviews.length`, and shows at most three tag badges.
- The bookings page (`src/pages/Bookings.tsx`), module `Bookings`. The class
  `BookingsPage` holds the two stateful lists, and cancelling moves a booking from one to
  the other. The visible buttons, the re-book notice and the status badge are pure rules.
- The star row (`src/components/common/RatingStars.tsx`), module `RatingStars`.
- The featured section (`src/components/home/FeaturedArtisans.tsx`), module
  `FeaturedArtisans`.

Two modules support them:

- `Common` holds the JavaScript array primitives the code relies on: `filter`, `find`,
  `findIndex` and `slice`, plus an `Option` type for `null`/`undefined`.
- `Sorting` models `Array.prototype.sort`. ECMA-262 (2024 edition, section 23.1.3.30)
  requires this sort to be stable. A comparator `comparefn` is represented by
  `less(a, b) := comparefn(a, b) < 0`.
  - The sort is specified by a stable insertion sort, `Sort`.
  - `StableSortUnique` proves that, for a consistent comparator, a stable sort has only
    one possible output. So `Sort` describes whatever algorithm the engine uses.
  - `SortInPlace` sorts an `array` in place, and its postcondition ties the result to
    `Sort`.

Values are modelled as follows:

- A `string | null` id is an `Option<string>`. JavaScript truthiness of the id means "present and non-empty".
- Ratings are exact `real`s.
- `localeCompare` is an abstract parameter `collate`. The name-order lemmas assume only
  that it is a total preorder (`IsCollation`).

## Model

| member | source | states |
|---|---|---|
| Common.Filter | src/utils/data.ts:262-263 | `filter` keeps only elements satisfying the predicate, keeps every such element, and is never longer than its input |
| Common.FilterAppend | src/utils/data.ts:262-263 | filtering distributes over concatenation (the filter keeps the original order) |
| Common.FilterCount | src/utils/data.ts:262-263 | each element occurs in the filtered list as often as in the input if it passes, otherwise not at all |
| Common.FilterPermutation | src/utils/data.ts:262-263 | filtering two permutations of one list gives permutations of one another |
| Common.FilterIsSubsequence | src/utils/data.ts:262-263 | the filtered list is a subsequence of the input |
| Common.FindIndex | src/utils/data.ts:268 | the index found is the first one satisfying the predicate, or the length when there is none |
| Common.Find | src/utils/data.ts:268 | `find` returns undefined iff no element matches, otherwise the first matching element |
| Common.Slice | src/components/home/TopArtisansCarousel.tsx:96 | `slice(start, end)` clamps both bounds to the length and copies `s[start + k]` to position `k` |
| Sorting.Insert | src/pages/AllArtisans.tsx:15-26 | one insertion step of the stable sort: `x` goes after every element it need not precede; stated by InsertPermutes, InsertSorted, InsertKeepsTies and InsertPosition |
| Sorting.Sort | src/pages/AllArtisans.tsx:15-26 | `Array.prototype.sort(comparefn)`; stated by SortPermutes, SortSorted and SortStable, and StableSortUnique shows it is the only stable sort for a consistent comparator |
| Sorting.InsertPermutes | src/pages/AllArtisans.tsx:15-26 | inserting `x` into a list adds exactly one occurrence of `x` |
| Sorting.SortPermutes | src/pages/AllArtisans.tsx:15-26 | the sort is a permutation of its input (same multiset, same length) |
| Sorting.InsertSorted | src/pages/AllArtisans.tsx:15-26 | with a consistent comparator, inserting into a sorted list keeps it sorted |
| Sorting.SortSorted | src/pages/AllArtisans.tsx:15-26 | with a consistent comparator, the output is sorted: no element must precede an earlier one |
| Sorting.InsertKeepsTies | src/pages/AllArtisans.tsx:15-26 | inserting `x` appends `x` to its own group of compare-equal elements and leaves every other group as it was |
| Sorting.SortStable | src/pages/AllArtisans.tsx:15-26 | stability: for every `y`, the elements comparing equal to `y` keep their input order |
| Sorting.SortedTiesDetermine | src/pages/AllArtisans.tsx:15-26 | two sorted lists whose compare-equal groups agree are equal |
| Sorting.StableSortUnique | src/pages/AllArtisans.tsx:15-26 | any sorted list that keeps every compare-equal group in input order equals `Sort`, so any stable sort gives the same output |
| Sorting.InsertPosition | src/components/home/TopArtisansCarousel.tsx:96 | an element lands after what it need not precede and before the trailing run it must precede |
| Sorting.InsertAt | src/components/home/TopArtisansCarousel.tsx:96 | one in-place insertion step: the array prefix becomes `Insert` of the old prefix and element, and the rest is untouched |
| Sorting.SortInPlace | src/components/home/TopArtisansCarousel.tsx:96 | the array ends up holding `Sort` of its old contents |
| Catalog.FilterByCategory | src/utils/data.ts:261-264 | the category filter is never longer than the catalog |
| Catalog.GetArtisanById | src/utils/data.ts:266-269 | a null or empty id gives undefined; otherwise undefined iff no artisan has that id, and a hit is the first artisan with that id |
| Catalog.GetCategoryById | src/utils/data.ts:271-274 | the same null, first-match and not-found contract over the categories |
| Catalog.FeaturedWhenNoCategory | src/utils/data.ts:262 | a null or empty id gives exactly the featured artisans, each as often as in the catalog, in catalog order |
| Catalog.MatchingWhenCategory | src/utils/data.ts:263 | a non-empty id gives exactly the artisans of that category, each as often as in the catalog, in catalog order |
| Catalog.UnknownCategoryIsEmpty | src/utils/data.ts:263 | an id that no artisan carries gives the empty list |
| Catalog.ListedUnderOwnCategory | src/utils/data.ts:263 | every artisan with a non-empty category id appears in its own category's list |
| Catalog.FilterByCategoryPermutation | src/utils/data.ts:261-264 | reordering the catalog only permutes every category listing |
| Catalog.SeedFeatured | src/utils/data.ts:96-262 | on the seed catalog the default listing is a1, a2, a4, a6 |
| Catalog.SeedCategoryPages | src/utils/data.ts:96-263 | on the seed catalog, "plumbing" lists a1 and "security" lists nobody |
| Catalog.SeedLookupHit | src/utils/data.ts:96-268 | on the seed catalog, looking up "a4" finds a4 |
| Catalog.SeedLookupMisses | src/utils/data.ts:37-274 | on the seed data, an unknown id, a null id and an empty category id all give undefined |
| AllArtisans.Compare | src/pages/AllArtisans.tsx:15-26 | the comparator for the three sort keys; ComparatorConsistent proves each is a strict weak order |
| AllArtisans.FilteredAndSorted | src/pages/AllArtisans.tsx:13-26 | `filteredAndSortedArtisans`, the verified filter followed by the sort; stated by ListedArtisans, ShowingCount, RatingOrder, NameOrder, ExperienceOrder and PageStable |
| AllArtisans.ExperienceYears | src/pages/AllArtisans.tsx:22 | the experience key is `yearsExperience` unless that is missing or 0, then `yearsOfExperience`, then 0 |
| AllArtisans.ComparatorConsistent | src/pages/AllArtisans.tsx:15-26 | each of the three comparators is a strict weak order (for names, given a collation) |
| AllArtisans.ListedArtisans | src/pages/AllArtisans.tsx:14 | the page lists each catalog artisan as often as in the catalog, or not at all when it is unverified and the filter is on |
| AllArtisans.ShowingCount | src/pages/AllArtisans.tsx:13-80 | the result is a permutation of the filtered list; in "Showing N of M", N <= M, and N = M when the filter is off |
| AllArtisans.RatingOrder | src/pages/AllArtisans.tsx:17-18 | by rating: ratings never increase along the page, and artisans with equal ratings keep their catalog order |
| AllArtisans.NameOrder | src/pages/AllArtisans.tsx:19-20 | by name: every adjacent pair satisfies `localeCompare(a.name, b.name) <= 0` |
| AllArtisans.ExperienceOrder | src/pages/AllArtisans.tsx:21-22 | by experience: the fallback key never increases along the page |
| AllArtisans.PageStable | src/pages/AllArtisans.tsx:13-26 | for every sort key (names given a collation), artisans the comparator ranks equal keep their catalog order |
| TopArtisans.HigherRated | src/components/home/TopArtisansCarousel.tsx:96 | the carousel comparator `b.rating - a.rating < 0`; its order is stated by TopRatedOrdered and TopRatedAreBest |
| TopArtisans.TopRated | src/components/home/TopArtisansCarousel.tsx:96 | the first eight of the rating sort; stated by TopRatedLength, TopRatedOrdered and TopRatedAreBest |
| TopArtisans.SelectTopArtisans | src/components/home/TopArtisansCarousel.tsx:96 | the shared catalog array is sorted in place: it becomes the stable rating-descending sort of its old contents, a permutation with non-increasing ratings; the carousel shows the first eight |
| TopArtisans.SelectTopArtisansFromCopy | src/components/home/TopArtisansCarousel.tsx:96 | sorting a copy gives the same eight artisans and leaves the catalog alone |
| TopArtisans.TopRatedLength | src/components/home/TopArtisansCarousel.tsx:96 | the carousel shows min(8, n) artisans |
| TopArtisans.TopRatedOrdered | src/components/home/TopArtisansCarousel.tsx:96 | the shown ratings never increase |
| TopArtisans.TopRatedAreBest | src/components/home/TopArtisansCarousel.tsx:96 | every artisan left out is rated no higher than every artisan shown |
| TopArtisans.SeedCarousel | src/components/home/TopArtisansCarousel.tsx:96 | on the seed catalog the sort gives a1, a4, a2, a6, a3, a5, and once it has run, the featured listing read from the shared array changes from a1, a2, a4, a6 to a1, a4, a2, a6 |
| TopArtisans.SeedSortPrefix | src/components/home/TopArtisansCarousel.tsx:96 | the sort of the first four seed artisans is a1, a4, a2, a3 |
| TopArtisans.SortedSeedFeatured | src/utils/data.ts:262 | the featured filter of the re-sorted seed catalog is a1, a4, a2, a6 |
| TopArtisans.Capitalize | src/components/home/TopArtisansCarousel.tsx:46 | capitalising a word keeps its length |
| TopArtisans.CapitalizeEach | src/components/home/TopArtisansCarousel.tsx:46 | mapping capitalisation over the pieces capitalises each piece, in place |
| TopArtisans.Split | src/components/home/TopArtisansCarousel.tsx:46 | `split` always returns at least one piece |
| TopArtisans.FormatPieces | src/components/home/TopArtisansCarousel.tsx:46 | split on '-', capitalise and join on ' ': same length, each '-' becomes ' ', each piece's first character is upper-cased, the rest is kept |
| TopArtisans.CategoryLabel | src/components/home/TopArtisansCarousel.tsx:45-47 | the formatted category label; stated by CategoryLabelFormat and FormatPieces |
| TopArtisans.CategoryLabelFormat | src/components/home/TopArtisansCarousel.tsx:45-47 | a category without '-' is shown unchanged; a hyphenated one keeps its length, contains no '-' and is formatted character by character as above |
| TopArtisans.ShownReviewCount | src/components/home/TopArtisansCarousel.tsx:52 | the count is `reviewCount` unless that is 0 or absent, then `reviews.length`; it is an error exactly when both are unusable |
| TopArtisans.TagBadges | src/components/home/TopArtisansCarousel.tsx:73-77 | at most three badges: the first `specialties` when present, otherwise the first `skills` capitalised, otherwise none |
| Bookings.Cancel | src/pages/Bookings.tsx:72-76 | `handleCancelBooking` as a function of the two lists; stated by CancelRemoves, CancelArchives, CancelAbsent and CancelPreservesTotal |
| Bookings.CancelRemoves | src/pages/Bookings.tsx:72 | cancelling removes every upcoming booking with that id and keeps the others, each as often as before and in order |
| Bookings.CancelArchives | src/pages/Bookings.tsx:73-76 | if the id was upcoming, the past list gains exactly one entry at its end, a copy of the first match with status cancelled; earlier past entries are unchanged |
| Bookings.CancelAbsent | src/pages/Bookings.tsx:72-76 | cancelling an id that is not upcoming changes neither list |
| Bookings.FilterDropsOne | src/pages/Bookings.tsx:72 | with unique ids, filtering out a present id removes exactly one booking |
| Bookings.CancelPreservesTotal | src/pages/Bookings.tsx:72-76 | with unique upcoming ids, a cancel preserves the total number of bookings |
| Bookings.OffersCancel | src/pages/Bookings.tsx:161 | the Cancel button shows on an upcoming card whose status is not cancelled; stated by ActionsExclusive |
| Bookings.OffersReviewAndRebook | src/pages/Bookings.tsx:166 | the Review and Re-book buttons show on a past card with status completed; stated by ActionsExclusive |
| Bookings.ActionsExclusive | src/pages/Bookings.tsx:161-175 | no card offers both Cancel and Review/Re-book, and a booking just archived by a cancel offers neither |
| Bookings.Rebook | src/pages/Bookings.tsx:87-102 | re-book shows a redirect notice naming the artisan when an artisan id is present and non-empty, and a destructive error notice otherwise |
| Bookings.StatusBadgeClass | src/pages/Bookings.tsx:181-189 | the badge class of each status; BadgeClassesDistinct proves the four differ |
| Bookings.BadgeClassesDistinct | src/pages/Bookings.tsx:181-189 | the four statuses get four different badge classes |
| Bookings.BookingsPage.constructor | src/pages/Bookings.tsx:29-63 | the page starts with the two mock upcoming bookings and the one past booking |
| Bookings.BookingsPage.CancelBooking | src/pages/Bookings.tsx:65-77 | `handleCancelBooking` takes the page state to `Cancel` of the old state |
| RatingStars.Stars | src/components/common/RatingStars.tsx:15-35 | exactly `maxRating` stars, 5 by default; a `maxRating` below 0 or above 2^32 - 1 is the `Array` RangeError |
| RatingStars.StarFill | src/components/common/RatingStars.tsx:38-44 | the fill of star `i`; stated by StarFillCases, AtMostOneHalf and FillMonotone |
| RatingStars.StarFillCases | src/components/common/RatingStars.tsx:39-43 | star `i` is full iff `i < floor(rating)`, half iff `floor(rating) <= i < rating`, and empty iff `i >= rating` |
| RatingStars.AtMostOneHalf | src/components/common/RatingStars.tsx:39-42 | at most one star is half filled, and none for a whole-number rating |
| RatingStars.FillMonotone | src/components/common/RatingStars.tsx:38-44 | full stars come before the half star, which comes before the empty ones |
| RatingStars.FullStarCount | src/components/common/RatingStars.tsx:35-39 | for any accepted `maxRating` (0 to 2^32 - 1), the number of full stars is min(maxRating, max(0, floor(rating))) |
| RatingStars.NatToDecimal | src/components/common/RatingStars.tsx:57 | the rendered count is a non-empty string of decimal digits with no leading zero |
| RatingStars.NumberText | src/components/common/RatingStars.tsx:57 | `String(reviews)` for an integer; NumberTextRoundTrip proves it reads back as the integer |
| RatingStars.DecimalRoundTrip | src/components/common/RatingStars.tsx:57 | the decimal digits of `n` read back as `n` |
| RatingStars.NumberTextRoundTrip | src/components/common/RatingStars.tsx:57 | the rendered text of any integer, negative ones included, reads back as that integer |
| RatingStars.ReviewSuffix | src/components/common/RatingStars.tsx:55-59 | the "(reviews)" text is non-empty iff `reviews` is given (an `undefined` test, not truthiness), and is parenthesised |
| RatingStars.ReviewSuffixShowsCount | src/components/common/RatingStars.tsx:55-59 | the text shows the given count, which reads back from between the parentheses; a count of 0 is shown as "(0)" |
| FeaturedArtisans.Featured | src/components/home/FeaturedArtisans.tsx:10 | the featured list; FeaturedIsDefaultListing states it |
| FeaturedArtisans.FirstGrid | src/components/home/FeaturedArtisans.tsx:24 | the first grid; FirstGridShape states it |
| FeaturedArtisans.SecondGrid | src/components/home/FeaturedArtisans.tsx:30 | the second grid; SecondGridShape and SecondGridMayRepeat state it |
| FeaturedArtisans.FeaturedIsDefaultListing | src/components/home/FeaturedArtisans.tsx:10 | the featured list is the category filter's default listing: exactly the featured artisans, in catalog order |
| FeaturedArtisans.FirstGridShape | src/components/home/FeaturedArtisans.tsx:24 | the first grid shows the first min(2, #featured) featured artisans, all featured |
| FeaturedArtisans.SecondGridShape | src/components/home/FeaturedArtisans.tsx:30 | the second grid shows catalog entries 2 .. min(6, n) - 1, at most four |
| FeaturedArtisans.SecondGridMayRepeat | src/components/home/FeaturedArtisans.tsx:24-30 | the second grid ignores `featured`, so it can repeat an artisan shown in the first grid |
| FeaturedArtisans.SeedGrids | src/components/home/FeaturedArtisans.tsx:24-30 | on the seed catalog the grids show a1, a2 and a3 .. a6 |

## Left out

- Catalog: the three data functions are Dafny functions over the catalog, so they cannot modify it; no lemma is needed for that.
- Default category listing: for a missing id, the code returns the featured artisans (src/utils/data.ts:262), and the model follows it.
- Rendering: JSX, Tailwind class strings other than the status badge, routing, layout and icons are view code.
- Side effects: toasts and `console.log` in the bookings handlers, the `handleLeaveReview` notice and the re-book navigation (which is commented out) are not modelled. `Rebook` models only the notice's title, text and variant.
- Bookings sign-in: the authentication gate and `handleMockLogin` rely on `isAuthenticated`/`currentUser`/`login`, which the app context does not provide, so they are not modelled.
- React state: updates are batched, and `handleCancelBooking` reads `upcomingBookingsData` from the render in which it was created. `CancelBooking` applies both updates to the current state as one step. The two agree whenever one cancel is handled per render.
- Other modules: the search page's `filterArtisansBySearch` is not defined in `src/utils/data.ts` and is not part of this model. Neither are `Badge.tsx` (it calls the external `cn` helper), `ContactArtisanModal.tsx` (timers and I/O) and `AppContext.tsx` (plain setters).
- AllArtisans.Compare: the comparator's `default: return 0` branch cannot be reached, because `sortBy` has exactly three values.
- Bookings.StatusBadgeClass: the `default` branch (src/pages/Bookings.tsx:187) cannot be reached, because `Status` has exactly the four values of the TypeScript union.
- AllArtisans.NameOrder: `localeCompare` is an abstract parameter. Only its consistency as a total preorder is assumed, because the locale's collation rules are an external library.
- Numbers: ratings are exact rationals, not IEEE doubles, so NaN, infinities and rounding in `b.rating - a.rating` are not modelled. `rating.toFixed(1)` is float formatting and is left out.
- RatingStars.Stars: `maxRating` is an integer. A fractional `maxRating` (another RangeError in `Array`) is not modelled.
- RatingStars.NumberText: `reviews` is an integer, so `String` of a fractional number, NaN or an exponent form is not modelled.
- TopArtisans.CategoryLabel: `toUpperCase` is modelled for ASCII letters only. The `typeof category === 'string'` guard is always true, because the field is a string.
- TopArtisans.ShownReviewCount: the TypeError raised when both `reviewCount` and `reviews` are unusable is modelled as `None`. The model does not capture that the error aborts the render.
- Artisan fields that no modelled rule reads are left out of `Artisan`: image, location, distance, response time, completion rate, portfolio, about, services, pricing and join date. The category icons are kept as the emoji strings of the seed data.

## Findings

| source | as written | input that shows it | evidently intended | confidence | as-written member | corrected member |
|---|---|---|---|---|---|---|
| src/components/home/TopArtisansCarousel.tsx:96 | `artisans.sort(...)` sorts the shared catalog array in place, so every later reader of `artisans` sees it reordered by rating | the seed catalog: before the carousel renders, the featured listing (src/components/home/FeaturedArtisans.tsx:10, src/utils/data.ts:262) is a1, a2, a4, a6; once it has rendered, every later reader of the shared `artisans` array sees the rating order, and that listing is a1, a4, a2, a6. No page in this source tree mounts the carousel, so this happens only where it is mounted | sort a copy (`[...artisans].sort(...)`), so the catalog keeps its order | high (not executed) | TopArtisans.SelectTopArtisans, TopArtisans.SeedCarousel | TopArtisans.SelectTopArtisansFromCopy |
