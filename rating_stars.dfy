/** The star row of `src/components/common/RatingStars.tsx`: `maxRating` stars (5 by
    default), each full, half or empty by comparing its index with `Math.floor(rating)`
    and `rating`, and an optional review count after the row. */
module RatingStars {
  import opened Common

  datatype Fill = Full | Half | Empty

  /** The class chosen for star `i`. */
  function StarFill(i: int, rating: real): Fill
  {
    if i < rating.Floor then Full
    else if (i as real) < rating then Half
    else Empty
  }

  /** The largest length `Array(len)` accepts: 2^32 - 1. */
  const MaxArrayLength: int := 4294967295

  /** `[...Array(maxRating)].map((_, i) => …)`, with `maxRating = 5` when the prop is
      absent; `None` stands for the RangeError `Array` throws on a length that is negative
      or above `MaxArrayLength`. */
  function Stars(rating: real, maxRating: Option<int>): (r: Option<seq<Fill>>)
    ensures r.None? <==> maxRating.Some? && (maxRating.value < 0 || maxRating.value > MaxArrayLength)
    ensures r.Some? ==> |r.value| == (if maxRating.Some? then maxRating.value else 5)
  {
    var n := if maxRating.Some? then maxRating.value else 5;
    if n < 0 || n > MaxArrayLength then None
    else Some(seq(n, i requires 0 <= i < n => StarFill(i, rating)))
  }

  /** Star `i` is full iff `i < floor(rating)`, half iff `floor(rating) <= i < rating`,
      and empty iff `i >= rating`. */
  lemma StarFillCases(i: int, rating: real)
    ensures StarFill(i, rating) == Full <==> i < rating.Floor
    ensures StarFill(i, rating) == Half <==> rating.Floor <= i && (i as real) < rating
    ensures StarFill(i, rating) == Empty <==> (i as real) >= rating
  {
  }

  /** At most one star is half filled, and none when the rating is a whole number. */
  lemma AtMostOneHalf(i: int, j: int, rating: real)
    ensures StarFill(i, rating) == Half && StarFill(j, rating) == Half ==> i == j
    ensures rating == rating.Floor as real ==> StarFill(i, rating) != Half
  {
  }

  function Rank(f: Fill): int
  {
    match f
    case Full => 0
    case Half => 1
    case Empty => 2
  }

  /** Full stars come first, then the half star, then the empty ones. */
  lemma FillMonotone(i: int, j: int, rating: real)
    requires i <= j
    ensures Rank(StarFill(i, rating)) <= Rank(StarFill(j, rating))
  {
  }

  function CountFull(stars: seq<Fill>): nat
  {
    if stars == [] then 0
    else CountFull(stars[..|stars| - 1]) + (if stars[|stars| - 1] == Full then 1 else 0)
  }

  /** The number of full stars is min(maxRating, max(0, floor(rating))). */
  lemma {:induction false} FullStarCount(rating: real, n: nat)
    requires n <= MaxArrayLength
    ensures var stars := Stars(rating, Some(n));
            stars.Some? && CountFull(stars.value) == Min(n, Max(0, rating.Floor))
  {
    var stars := Stars(rating, Some(n)).value;
    if n > 0 {
      FullStarCount(rating, n - 1);
      assert stars[..n - 1] == Stars(rating, Some(n - 1)).value;
    }
  }

  function Digit(d: int): char
    requires 0 <= d < 10
  {
    ('0' as int + d) as char
  }

  /** The decimal digits of a natural number, without leading zeros. */
  function NatToDecimal(n: nat): (s: string)
    ensures |s| >= 1
    ensures forall i :: 0 <= i < |s| ==> '0' <= s[i] <= '9'
    ensures s[0] == '0' <==> n == 0
  {
    if n < 10 then [Digit(n)] else NatToDecimal(n / 10) + [Digit(n % 10)]
  }

  /** `String(n)` for an integer `n`: its decimal digits, after a '-' when negative. */
  function NumberText(n: int): string
  {
    if n < 0 then "-" + NatToDecimal(-n) else NatToDecimal(n)
  }

  /** Reads a decimal string back: the partner of `NatToDecimal`. */
  function DecimalValue(s: string): int
  {
    if s == [] then 0 else DecimalValue(s[..|s| - 1]) * 10 + (s[|s| - 1] as int - '0' as int)
  }

  function NumberValue(s: string): int
  {
    if s != [] && s[0] == '-' then -DecimalValue(s[1..]) else DecimalValue(s)
  }

  lemma {:induction false} DecimalRoundTrip(n: nat)
    ensures DecimalValue(NatToDecimal(n)) == n
  {
    if n >= 10 {
      DecimalRoundTrip(n / 10);
      var s := NatToDecimal(n);
      assert s[..|s| - 1] == NatToDecimal(n / 10);
    }
  }

  /** The rendered number reads back as the number. */
  lemma NumberTextRoundTrip(n: int)
    ensures NumberValue(NumberText(n)) == n
  {
    if n < 0 {
      DecimalRoundTrip(-n);
      assert ("-" + NatToDecimal(-n))[1..] == NatToDecimal(-n);
    } else {
      DecimalRoundTrip(n);
    }
  }

  /** `{reviews !== undefined && <span>({reviews})</span>}`: the count in parentheses
      when the prop is given, nothing otherwise. The test is against `undefined`, not
      truthiness, so a count of 0 is shown. */
  function ReviewSuffix(reviews: Option<int>): (text: string)
    ensures text != "" <==> reviews.Some?
    ensures reviews.Some? ==> |text| >= 3 && text[0] == '(' && text[|text| - 1] == ')'
  {
    if reviews.Some? then "(" + NumberText(reviews.value) + ")" else ""
  }

  /** The suffix shows the given count, which can be read back from it; 0 is shown as "(0)". */
  lemma ReviewSuffixShowsCount(n: int)
    ensures var text := ReviewSuffix(Some(n));
            NumberValue(text[1..|text| - 1]) == n
    ensures ReviewSuffix(Some(0)) == "(0)"
  {
    var text := ReviewSuffix(Some(n));
    assert text[1..|text| - 1] == NumberText(n);
    NumberTextRoundTrip(n);
  }
}
