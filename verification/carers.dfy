/**
 * The carer directory store (src/stores/carers.js): an in-memory list of
 * carer records with rating, review-count and description getters and an
 * `addReview` action. Actions are pure functions from one store to the next.
 */
module CarersStore {
  import opened Wrappers
  import opened Strings

  const DescriptionPlaceholder := "The carer is busy writing the introduction, come back later."

  /** The rating a carer without reviews is shown with. */
  const DefaultRating: real := 5.0

  /**
   * One carer. `description` is `None` when the field is absent, `null` or `undefined`, and
   * `reviews` is `None` when the field holds something other than an array.
   */
  datatype Carer = Carer(
    id: string,
    name: string,
    photo: string,
    description: Option<string>,
    reviews: Option<seq<int>>)

  datatype Store = Store(carers: seq<Carer>)

  function Sum(xs: seq<int>): int {
    if xs == [] then 0 else xs[0] + Sum(xs[1..])
  }

  /** Every rating in `xs` lies in [1, 5]. */
  predicate RatingsInRange(xs: seq<int>) {
    forall i :: 0 <= i < |xs| ==> 1 <= xs[i] <= 5
  }

  /** Every carer that has a review array has only ratings in [1, 5]. */
  predicate ValidRatings(s: Store) {
    forall i :: 0 <= i < |s.carers| ==> s.carers[i].reviews.Some? ==> RatingsInRange(s.carers[i].reviews.value)
  }

  /** No two carers share an id. */
  predicate DistinctIds(s: Store) {
    forall i, j :: 0 <= i < j < |s.carers| ==> s.carers[i].id != s.carers[j].id
  }

  /** Adding one more rating adds it to the total. */
  lemma {:induction false} SumAppend(xs: seq<int>, x: int)
    ensures Sum(xs + [x]) == Sum(xs) + x
  {
    if xs != [] {
      assert (xs + [x])[1..] == xs[1..] + [x];
      SumAppend(xs[1..], x);
    }
  }

  /** The total of `n` ratings that each lie in [lo, hi] lies in [n * lo, n * hi]. */
  lemma {:induction false} SumBounds(xs: seq<int>, lo: int, hi: int)
    requires forall i :: 0 <= i < |xs| ==> lo <= xs[i] <= hi
    ensures |xs| * lo <= Sum(xs) <= |xs| * hi
  {
    if xs != [] {
      SumBounds(xs[1..], lo, hi);
    }
  }

  /** `calculateAverage(reviews)`: the mean of the ratings, or 5 for no (or no array of) ratings. */
  function CalculateAverage(reviews: Option<seq<int>>): (avg: real)
    ensures reviews.None? || reviews.value == [] ==> avg == DefaultRating
    ensures reviews.Some? && reviews.value != [] ==> avg * (|reviews.value| as real) == Sum(reviews.value) as real
  {
    if reviews.None? || reviews.value == [] then DefaultRating
    else (Sum(reviews.value) as real) / (|reviews.value| as real)
  }

  /** A total between `lo * n` and `hi * n` divided by a positive `n` lies between `lo` and `hi`. */
  lemma QuotientBounds(total: real, n: real, lo: real, hi: real)
    requires n > 0.0 && lo * n <= total <= hi * n
    ensures lo <= total / n <= hi
  {
  }

  /** The average of ratings that all lie in [1, 5] lies in [1, 5] too. */
  lemma AverageWithinRatingRange(reviews: Option<seq<int>>)
    requires reviews.Some? ==> RatingsInRange(reviews.value)
    ensures 1.0 <= CalculateAverage(reviews) <= 5.0
  {
    if reviews.Some? && reviews.value != [] {
      var xs := reviews.value;
      SumBounds(xs, 1, 5);
      QuotientBounds(Sum(xs) as real, |xs| as real, 1.0, 5.0);
    }
  }

  /** `carers.find((c) => c.id === id)`, as the index of the first carer with that id. */
  function FindIndex(carers: seq<Carer>, id: string): (r: Option<nat>)
    ensures r.None? <==> forall i :: 0 <= i < |carers| ==> carers[i].id != id
    ensures r.Some? ==> r.value < |carers| && carers[r.value].id == id
    ensures r.Some? ==> forall j :: 0 <= j < r.value ==> carers[j].id != id
  {
    if carers == [] then None
    else if carers[0].id == id then Some(0)
    else
      match FindIndex(carers[1..], id)
      case None => None
      case Some(k) => Some(k + 1)
  }

  /** `getCarerById(id)`: the first carer with that id, or `null`. */
  function GetCarerById(s: Store, id: string): (r: Option<Carer>)
    ensures r.None? <==> forall i :: 0 <= i < |s.carers| ==> s.carers[i].id != id
    ensures r.Some? ==> r.value.id == id
    ensures r.Some? ==> exists i :: 0 <= i < |s.carers| && s.carers[i] == r.value
                                     && forall j :: 0 <= j < i ==> s.carers[j].id != id
  {
    match FindIndex(s.carers, id)
    case None => None
    case Some(i) => Some(s.carers[i])
  }

  /** `getAverageRating(id)` */
  function GetAverageRating(s: Store, id: string): (r: real)
    ensures GetCarerById(s, id).None? ==> r == DefaultRating
    ensures GetCarerById(s, id).Some? ==> r == CalculateAverage(GetCarerById(s, id).value.reviews)
    ensures ValidRatings(s) ==> 1.0 <= r <= 5.0
  {
    match FindIndex(s.carers, id)
    case None => DefaultRating
    case Some(i) =>
      var reviews := s.carers[i].reviews;
      if ValidRatings(s) then
        AverageWithinRatingRange(reviews);
        CalculateAverage(reviews)
      else CalculateAverage(reviews)
  }

  /** `getReviewCount(id)` */
  function GetReviewCount(s: Store, id: string): (r: nat)
    ensures GetCarerById(s, id).None? ==> r == 0
    ensures GetCarerById(s, id).Some? && GetCarerById(s, id).value.reviews.None? ==> r == 0
    ensures GetCarerById(s, id).Some? && GetCarerById(s, id).value.reviews.Some? ==>
              r == |GetCarerById(s, id).value.reviews.value|
  {
    match GetCarerById(s, id)
    case None => 0
    case Some(c) => if c.reviews.None? then 0 else |c.reviews.value|
  }

  /** `Math.round(x)`: the nearest integer, halves rounded up. */
  function Round(x: real): (r: int)
    ensures (r as real) - 0.5 <= x < (r as real) + 0.5
  {
    (x + 0.5).Floor
  }

  /** `Math.min(5, Math.max(1, Math.round(rating)))` */
  function NormaliseRating(rating: real): (r: int)
    ensures 1 <= r <= 5
    ensures rating < 1.5 ==> r == 1
    ensures rating >= 4.5 ==> r == 5
    ensures 1.5 <= rating < 4.5 ==> (r as real) - 0.5 <= rating < (r as real) + 0.5
  {
    var n := Round(rating);
    if n < 1 then 1 else if n > 5 then 5 else n
  }

  /**
   * `addReview(id, rating)`: appends the normalised rating to the first
   * carer with that id, starting a fresh array when the field held none.
   */
  function AddReview(s: Store, id: string, rating: real): (r: Store)
    ensures FindIndex(s.carers, id).None? ==> r == s
    ensures |r.carers| == |s.carers|
    ensures FindIndex(s.carers, id).Some? ==>
              var i := FindIndex(s.carers, id).value;
              var before := s.carers[i].reviews;
              && r.carers[i] == s.carers[i].(reviews := r.carers[i].reviews)
              && r.carers[i].reviews.Some?
              && r.carers[i].reviews.value == (if before.Some? then before.value else []) + [NormaliseRating(rating)]
              && (forall j :: 0 <= j < |s.carers| && j != i ==> r.carers[j] == s.carers[j])
  {
    match FindIndex(s.carers, id)
    case None => s
    case Some(i) =>
      var c := s.carers[i];
      var existing := if c.reviews.Some? then c.reviews.value else [];
      Store(s.carers[i := c.(reviews := Some(existing + [NormaliseRating(rating)]))])
  }

  /** A review for a known carer raises its count by one, keeps ratings valid and adds the normalised rating to the sum of its ratings. */
  lemma AddReviewEffect(s: Store, id: string, rating: real)
    requires GetCarerById(s, id).Some?
    ensures GetReviewCount(AddReview(s, id, rating), id) == GetReviewCount(s, id) + 1
    ensures ValidRatings(s) ==> ValidRatings(AddReview(s, id, rating))
    ensures GetCarerById(AddReview(s, id, rating), id).Some?
    ensures var before := GetCarerById(s, id).value.reviews;
            var after := GetCarerById(AddReview(s, id, rating), id).value.reviews;
            after.Some? && Sum(after.value) == (if before.Some? then Sum(before.value) else 0) + NormaliseRating(rating)
  {
    var i := FindIndex(s.carers, id).value;
    var r := AddReview(s, id, rating);
    assert FindIndex(r.carers, id) == Some(i) by {
      assert forall j :: 0 <= j < i ==> r.carers[j] == s.carers[j];
    }
    var c := s.carers[i];
    var existing := if c.reviews.Some? then c.reviews.value else [];
    SumAppend(existing, NormaliseRating(rating));
    if ValidRatings(s) {
      forall k | 0 <= k < |r.carers| && r.carers[k].reviews.Some?
        ensures RatingsInRange(r.carers[k].reviews.value)
      {
        if k == i {
          assert RatingsInRange(existing);
        } else {
          assert r.carers[k] == s.carers[k];
        }
      }
    }
  }

  /** `getDescription(id)`: the trimmed description when it is not blank, the placeholder otherwise. */
  function GetDescription(s: Store, id: string): (r: string)
    ensures r != ""
    ensures GetCarerById(s, id).None? ==> r == DescriptionPlaceholder
    ensures GetCarerById(s, id).Some? ==>
              var d := GetCarerById(s, id).value.description;
              && (d.Some? && Trim(d.value) != "" ==> r == Trim(d.value))
              && (d.None? || Trim(d.value) == "" ==> r == DescriptionPlaceholder)
  {
    match GetCarerById(s, id)
    case None => DescriptionPlaceholder
    case Some(c) =>
      if c.description.Some? && Trim(c.description.value) != "" then Trim(c.description.value)
      else DescriptionPlaceholder
  }

  const AmeliaPhoto := "https://images.unsplash.com/photo-1524504388940-b1c1722653e1?auto=format&fit=crop&w=400&q=80"
  const AmeliaDescription := "Amelia has been supporting families in our community for over a decade, focusing on personalised care plans that celebrate independence."
  const LiamDescription := "Liam specialises in dementia care and is known for creating calming routines that help people feel safe and understood."
  const NinaPhoto := "https://images.unsplash.com/photo-1544723795-3fb6469f5b39?auto=format&fit=crop&w=400&q=80"

  /** The store's seeded state: three carers. */
  function InitialStore(): (s: Store)
    ensures |s.carers| == 3
  {
    Store([
      Carer("amelia-stone", "Amelia Stone", AmeliaPhoto, Some(AmeliaDescription), Some([5, 4, 5, 5])),
      Carer("liam-patel", "Liam Patel", "", Some(LiamDescription), Some([4, 4, 5])),
      Carer("nina-owens", "Nina Owens", NinaPhoto, Some(""), Some([]))
    ])
  }

  /** Every seeded carer has a review array of ratings in [1, 5], and the seeded ids are distinct. */
  lemma InitialStoreIsValid()
    ensures ValidRatings(InitialStore())
    ensures DistinctIds(InitialStore())
    ensures forall i :: 0 <= i < |InitialStore().carers| ==> InitialStore().carers[i].reviews.Some?
  {
    var cs := InitialStore().carers;
    assert RatingsInRange(cs[0].reviews.value) by {
      assert cs[0].reviews.value == [5, 4, 5, 5];
    }
    assert RatingsInRange(cs[1].reviews.value) by {
      assert cs[1].reviews.value == [4, 4, 5];
    }
    assert cs[0].id != cs[1].id by {
      assert cs[0].id[0] == 'a' && cs[1].id[0] == 'l';
    }
    assert cs[0].id != cs[2].id by {
      assert cs[0].id[0] == 'a' && cs[2].id[0] == 'n';
    }
    assert cs[1].id != cs[2].id by {
      assert cs[1].id[0] == 'l' && cs[2].id[0] == 'n';
    }
  }
}
