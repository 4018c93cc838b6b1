/**
 * Order.get_review_score (olist/order.py): two indicator columns derived
 * from each review's score, one output row per review row.
 */
module Reviews {

  import opened Tables

  datatype ReviewFlags = ReviewFlags(orderId: string, fiveStar: int, oneStar: int, score: int)

  function FlagsKey(f: ReviewFlags): string { f.orderId }

  /** dim_five_star */
  function DimFiveStar(score: int): (r: int)
    ensures r == 0 || r == 1
    ensures r == 1 <==> score == 5
  {
    if score == 5 then 1 else 0
  }

  /** dim_one_star */
  function DimOneStar(score: int): (r: int)
    ensures r == 0 || r == 1
    ensures r == 1 <==> score == 1
  {
    if score == 1 then 1 else 0
  }

  function FlagsOf(r: Review): ReviewFlags
  {
    ReviewFlags(r.orderId, DimFiveStar(r.score), DimOneStar(r.score), r.score)
  }

  /** The frame get_review_score returns. */
  function ReviewFrame(reviews: seq<Review>): seq<ReviewFlags>
  {
    seq(|reviews|, i requires 0 <= i < |reviews| => FlagsOf(reviews[i]))
  }

  /** Flags of one row: each in {0, 1}, each set exactly for its score, never both set. */
  predicate FlagsSound(f: ReviewFlags)
  {
    (f.fiveStar == 0 || f.fiveStar == 1) && (f.oneStar == 0 || f.oneStar == 1) &&
    (f.fiveStar == 1 <==> f.score == 5) && (f.oneStar == 1 <==> f.score == 1) &&
    !(f.fiveStar == 1 && f.oneStar == 1)
  }

  /**
   * get_review_score: the copied table gains dim_is_five_star, then
   * dim_is_one_star; the four columns are returned, row for row.
   */
  method GetReviewScore(reviews: seq<Review>) returns (rows: seq<ReviewFlags>)
    ensures |rows| == |reviews|
    ensures forall i :: 0 <= i < |reviews| ==>
              rows[i].orderId == reviews[i].orderId && rows[i].score == reviews[i].score && FlagsSound(rows[i])
    ensures rows == ReviewFrame(reviews)
  {
    var fiveStar: seq<int> := [];
    for i := 0 to |reviews|
      invariant |fiveStar| == i
      invariant forall k :: 0 <= k < i ==> fiveStar[k] == DimFiveStar(reviews[k].score)
    {
      fiveStar := fiveStar + [DimFiveStar(reviews[i].score)];
    }
    var oneStar: seq<int> := [];
    for i := 0 to |reviews|
      invariant |oneStar| == i
      invariant forall k :: 0 <= k < i ==> oneStar[k] == DimOneStar(reviews[k].score)
    {
      oneStar := oneStar + [DimOneStar(reviews[i].score)];
    }
    rows := [];
    for i := 0 to |reviews|
      invariant |rows| == i
      invariant forall k :: 0 <= k < i ==> rows[k] == FlagsOf(reviews[k])
    {
      rows := rows + [ReviewFlags(reviews[i].orderId, fiveStar[i], oneStar[i], reviews[i].score)];
    }
  }

  /** Every row of the review frame has sound flags and keeps its review's order and score. */
  lemma ReviewFrameSound(reviews: seq<Review>)
    ensures |ReviewFrame(reviews)| == |reviews|
    ensures forall i :: 0 <= i < |reviews| ==>
              ReviewFrame(reviews)[i].orderId == reviews[i].orderId &&
              ReviewFrame(reviews)[i].score == reviews[i].score && FlagsSound(ReviewFrame(reviews)[i])
    ensures Keys(ReviewFrame(reviews), FlagsKey) == Keys(reviews, ReviewKey)
  {
    var fr := ReviewFrame(reviews);
    forall id | id in Keys(reviews, ReviewKey) ensures id in Keys(fr, FlagsKey) {
      var r :| r in reviews && ReviewKey(r) == id;
      var i :| 0 <= i < |reviews| && reviews[i] == r;
      assert fr[i] in fr;
    }
    forall id | id in Keys(fr, FlagsKey) ensures id in Keys(reviews, ReviewKey) {
      var f :| f in fr && FlagsKey(f) == id;
      var i :| 0 <= i < |fr| && fr[i] == f;
      assert reviews[i] in reviews;
    }
  }

  /** A single five-star review gives dim_is_five_star = 1 and dim_is_one_star = 0. */
  lemma FiveStarExample(orderId: string, reviewId: string)
    ensures ReviewFrame([Review(orderId, reviewId, 5)]) == [ReviewFlags(orderId, 1, 0, 5)]
  {
  }
}
