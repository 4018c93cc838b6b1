/**
 * Order.get_training_data (olist/order.py): the per-order feature frames
 * inner-merged on order_id, the distance frame merged only on request, and
 * the rows with a missing value dropped.
 */
module Training {

  import opened Tables
  import opened Joins
  import W = WaitTime
  import R = Reviews
  import F = ItemFeatures
  import D = Distance

  /** A row of the training set. distance is None when the distance frame was not merged. */
  datatype TrainingRow = TrainingRow(
    orderId: string,
    waitTime: Option<real>,
    expectedWaitTime: real,
    delayVsExpected: real,
    fiveStar: int,
    oneStar: int,
    score: int,
    numberOfProducts: nat,
    numberOfSellers: nat,
    price: int,
    freight: int,
    distance: Option<real>)

  function RowKey(t: TrainingRow): string { t.orderId }
  function WaitKey(w: W.WaitRow): string { w.orderId }
  function CountKey(c: F.CountRow): string { c.orderId }
  function PriceKey(p: F.PriceRow): string { p.orderId }

  /** The columns merged so far, with the columns still to come set to 0 or None. */
  function Start(w: W.WaitRow, f: R.ReviewFlags): TrainingRow
  {
    TrainingRow(w.orderId, w.waitTime, w.expectedWaitTime, w.delayVsExpected,
                f.fiveStar, f.oneStar, f.score, 0, 0, 0, 0, None)
  }

  function PutProducts(t: TrainingRow, c: F.CountRow): TrainingRow { t.(numberOfProducts := c.n) }
  function PutSellers(t: TrainingRow, c: F.CountRow): TrainingRow { t.(numberOfSellers := c.n) }
  function PutPrice(t: TrainingRow, p: F.PriceRow): TrainingRow { t.(price := p.price, freight := p.freight) }
  function PutDistance(t: TrainingRow, d: D.MeanRow): TrainingRow { t.(distance := Some(d.distance)) }

  /** The training row built from one row of each frame. */
  function Assemble(w: W.WaitRow, f: R.ReviewFlags, np: F.CountRow, ns: F.CountRow, pf: F.PriceRow, d: Option<D.MeanRow>): TrainingRow
  {
    TrainingRow(w.orderId, w.waitTime, w.expectedWaitTime, w.delayVsExpected,
                f.fiveStar, f.oneStar, f.score, np.n, ns.n, pf.price, pf.freight,
                if d.Some? then Some(d.value.distance) else None)
  }

  /** The four unconditional merges. */
  function Merged(data: Dataset, isDelivered: bool): seq<TrainingRow>
  {
    var withReviews := InnerJoin(W.WaitTimeFrame(data.orders, isDelivered), R.ReviewFrame(data.reviews), WaitKey, R.FlagsKey, Start);
    var withProducts := InnerJoin(withReviews, F.NumberProducts(data.items), RowKey, CountKey, PutProducts);
    var withSellers := InnerJoin(withProducts, F.NumberSellers(data.items), RowKey, CountKey, PutSellers);
    InnerJoin(withSellers, F.PriceAndFreight(data.items), RowKey, PriceKey, PutPrice)
  }

  /** The optional merge with the distance frame. */
  function MaybeDistance(rows: seq<TrainingRow>, distances: seq<D.MeanRow>, withDistance: bool): seq<TrainingRow>
  {
    if withDistance then InnerJoin(rows, distances, RowKey, D.MeanKey, PutDistance) else rows
  }

  /** dropna: wait_time is the only column that can be missing. */
  function DropNa(rows: seq<TrainingRow>): (r: seq<TrainingRow>)
    ensures forall t :: t in r <==> t in rows && t.waitTime.Some?
  {
    if rows == [] then []
    else (if rows[0].waitTime.Some? then [rows[0]] else []) + DropNa(rows[1..])
  }

  /** The frame get_training_data returns. */
  function TrainingData(data: Dataset, isDelivered: bool, withDistance: bool, dist: D.DistanceFn): seq<TrainingRow>
  {
    DropNa(MaybeDistance(Merged(data, isDelivered), D.DistanceFrame(data, dist), withDistance))
  }

  /** get_training_data, calling the feature methods. */
  method GetTrainingData(data: Dataset, isDelivered: bool, withDistance: bool, dist: D.DistanceFn)
    returns (rows: seq<TrainingRow>)
    ensures rows == TrainingData(data, isDelivered, withDistance, dist)
  {
    var waits := W.GetWaitTime(data.orders, isDelivered);
    var flags := R.GetReviewScore(data.reviews);
    var withReviews := InnerJoin(waits, flags, WaitKey, R.FlagsKey, Start);
    var withProducts := InnerJoin(withReviews, F.NumberProducts(data.items), RowKey, CountKey, PutProducts);
    var withSellers := InnerJoin(withProducts, F.NumberSellers(data.items), RowKey, CountKey, PutSellers);
    var merged := InnerJoin(withSellers, F.PriceAndFreight(data.items), RowKey, PriceKey, PutPrice);
    if withDistance {
      var distances := D.GetDistanceSellerCustomer(data, dist);
      merged := InnerJoin(merged, distances, RowKey, D.MeanKey, PutDistance);
    }
    rows := DropNa(merged);
  }

  // ---------------------------------------------------------------------------
  // What a training row is made of

  /** x is assembled from one row of each frame, all of order w.orderId, with a known wait_time. */
  ghost predicate BuiltFrom(data: Dataset, isDelivered: bool, withDistance: bool, dist: D.DistanceFn, x: TrainingRow,
                            w: W.WaitRow, f: R.ReviewFlags, np: F.CountRow, ns: F.CountRow, pf: F.PriceRow, d: Option<D.MeanRow>)
  {
    w in W.WaitTimeFrame(data.orders, isDelivered) && f in R.ReviewFrame(data.reviews) &&
    np in F.NumberProducts(data.items) && ns in F.NumberSellers(data.items) && pf in F.PriceAndFreight(data.items) &&
    f.orderId == w.orderId && np.orderId == w.orderId && ns.orderId == w.orderId && pf.orderId == w.orderId &&
    (if withDistance then d.Some? && d.value in D.DistanceFrame(data, dist) && d.value.orderId == w.orderId else d.None?) &&
    w.waitTime.Some? &&
    x == Assemble(w, f, np, ns, pf, d)
  }

  /** t is the merged row of one row of each of the four merged frames, all of order w.orderId. */
  ghost predicate MergedFrom(data: Dataset, isDelivered: bool, t: TrainingRow,
                             w: W.WaitRow, f: R.ReviewFlags, np: F.CountRow, ns: F.CountRow, pf: F.PriceRow)
  {
    w in W.WaitTimeFrame(data.orders, isDelivered) && f in R.ReviewFrame(data.reviews) &&
    np in F.NumberProducts(data.items) && ns in F.NumberSellers(data.items) && pf in F.PriceAndFreight(data.items) &&
    f.orderId == w.orderId && np.orderId == w.orderId && ns.orderId == w.orderId && pf.orderId == w.orderId &&
    t == Assemble(w, f, np, ns, pf, None)
  }

  lemma MergedSound(data: Dataset, isDelivered: bool, x: TrainingRow)
    requires x in Merged(data, isDelivered)
    ensures exists w, f, np, ns, pf :: MergedFrom(data, isDelivered, x, w, f, np, ns, pf)
  {
    var waits, flags := W.WaitTimeFrame(data.orders, isDelivered), R.ReviewFrame(data.reviews);
    var products, sellers, prices := F.NumberProducts(data.items), F.NumberSellers(data.items), F.PriceAndFreight(data.items);
    var withReviews := InnerJoin(waits, flags, WaitKey, R.FlagsKey, Start);
    var withProducts := InnerJoin(withReviews, products, RowKey, CountKey, PutProducts);
    var withSellers := InnerJoin(withProducts, sellers, RowKey, CountKey, PutSellers);
    InnerJoinMember(withSellers, prices, RowKey, PriceKey, PutPrice, x);
    var t3, pf :| t3 in withSellers && pf in prices && RowKey(t3) == PriceKey(pf) && x == PutPrice(t3, pf);
    InnerJoinMember(withProducts, sellers, RowKey, CountKey, PutSellers, t3);
    var t2, ns :| t2 in withProducts && ns in sellers && RowKey(t2) == CountKey(ns) && t3 == PutSellers(t2, ns);
    InnerJoinMember(withReviews, products, RowKey, CountKey, PutProducts, t2);
    var t1, np :| t1 in withReviews && np in products && RowKey(t1) == CountKey(np) && t2 == PutProducts(t1, np);
    InnerJoinMember(waits, flags, WaitKey, R.FlagsKey, Start, t1);
    var w, f :| w in waits && f in flags && WaitKey(w) == R.FlagsKey(f) && t1 == Start(w, f);
    assert MergedFrom(data, isDelivered, x, w, f, np, ns, pf);
  }

  lemma MergedComplete(data: Dataset, isDelivered: bool,
                       w: W.WaitRow, f: R.ReviewFlags, np: F.CountRow, ns: F.CountRow, pf: F.PriceRow)
    requires w in W.WaitTimeFrame(data.orders, isDelivered) && f in R.ReviewFrame(data.reviews)
    requires np in F.NumberProducts(data.items) && ns in F.NumberSellers(data.items) && pf in F.PriceAndFreight(data.items)
    requires f.orderId == w.orderId && np.orderId == w.orderId && ns.orderId == w.orderId && pf.orderId == w.orderId
    ensures Assemble(w, f, np, ns, pf, None) in Merged(data, isDelivered)
  {
    var waits, flags := W.WaitTimeFrame(data.orders, isDelivered), R.ReviewFrame(data.reviews);
    var products, sellers, prices := F.NumberProducts(data.items), F.NumberSellers(data.items), F.PriceAndFreight(data.items);
    var withReviews := InnerJoin(waits, flags, WaitKey, R.FlagsKey, Start);
    var withProducts := InnerJoin(withReviews, products, RowKey, CountKey, PutProducts);
    var withSellers := InnerJoin(withProducts, sellers, RowKey, CountKey, PutSellers);
    var t1 := Start(w, f);
    InnerJoinMember(waits, flags, WaitKey, R.FlagsKey, Start, t1);
    var t2 := PutProducts(t1, np);
    InnerJoinMember(withReviews, products, RowKey, CountKey, PutProducts, t2);
    var t3 := PutSellers(t2, ns);
    InnerJoinMember(withProducts, sellers, RowKey, CountKey, PutSellers, t3);
    InnerJoinMember(withSellers, prices, RowKey, PriceKey, PutPrice, PutPrice(t3, pf));
    assert PutPrice(t3, pf) == Assemble(w, f, np, ns, pf, None);
  }

  /** A row after the optional distance merge comes from a merged row and, on request, a distance row. */
  lemma SplitDistance(rows: seq<TrainingRow>, distances: seq<D.MeanRow>, withDistance: bool, x: TrainingRow)
    returns (t: TrainingRow, d: Option<D.MeanRow>)
    requires x in MaybeDistance(rows, distances, withDistance)
    ensures t in rows
    ensures withDistance ==> d.Some? && d.value in distances && d.value.orderId == t.orderId && x == PutDistance(t, d.value)
    ensures !withDistance ==> d.None? && x == t
  {
    t, d := x, None;
    if withDistance {
      InnerJoinMember(rows, distances, RowKey, D.MeanKey, PutDistance, x);
      var t0, dr :| t0 in rows && dr in distances && RowKey(t0) == D.MeanKey(dr) && x == PutDistance(t0, dr);
      t, d := t0, Some(dr);
    }
  }

  lemma TrainingRowBuilt(data: Dataset, isDelivered: bool, withDistance: bool, dist: D.DistanceFn, x: TrainingRow)
    requires x in TrainingData(data, isDelivered, withDistance, dist)
    ensures exists w, f, np, ns, pf, d :: BuiltFrom(data, isDelivered, withDistance, dist, x, w, f, np, ns, pf, d)
  {
    var t, d := SplitDistance(Merged(data, isDelivered), D.DistanceFrame(data, dist), withDistance, x);
    MergedSound(data, isDelivered, t);
    var w, f, np, ns, pf :| MergedFrom(data, isDelivered, t, w, f, np, ns, pf);
    assert BuiltFrom(data, isDelivered, withDistance, dist, x, w, f, np, ns, pf, d);
  }

  lemma BuiltRowPresent(data: Dataset, isDelivered: bool, withDistance: bool, dist: D.DistanceFn, x: TrainingRow,
                        w: W.WaitRow, f: R.ReviewFlags, np: F.CountRow, ns: F.CountRow, pf: F.PriceRow, d: Option<D.MeanRow>)
    requires BuiltFrom(data, isDelivered, withDistance, dist, x, w, f, np, ns, pf, d)
    ensures x in TrainingData(data, isDelivered, withDistance, dist)
  {
    var merged := Merged(data, isDelivered);
    var t := Assemble(w, f, np, ns, pf, None);
    MergedComplete(data, isDelivered, w, f, np, ns, pf);
    if withDistance {
      InnerJoinMember(merged, D.DistanceFrame(data, dist), RowKey, D.MeanKey, PutDistance, PutDistance(t, d.value));
      assert PutDistance(t, d.value) == x;
    }
  }

  /**
   * A row is in the training set exactly when it is assembled from a wait
   * row with a known wait_time, a review row, a number_of_products row, a
   * number_of_sellers row and a price row of the same order, and, when
   * requested, a distance row of that order.
   */
  lemma TrainingDataMember(data: Dataset, isDelivered: bool, withDistance: bool, dist: D.DistanceFn, x: TrainingRow)
    ensures x in TrainingData(data, isDelivered, withDistance, dist) <==>
            exists w, f, np, ns, pf, d :: BuiltFrom(data, isDelivered, withDistance, dist, x, w, f, np, ns, pf, d)
  {
    if x in TrainingData(data, isDelivered, withDistance, dist) {
      TrainingRowBuilt(data, isDelivered, withDistance, dist, x);
    }
    if exists w, f, np, ns, pf, d :: BuiltFrom(data, isDelivered, withDistance, dist, x, w, f, np, ns, pf, d) {
      var w, f, np, ns, pf, d :| BuiltFrom(data, isDelivered, withDistance, dist, x, w, f, np, ns, pf, d);
      BuiltRowPresent(data, isDelivered, withDistance, dist, x, w, f, np, ns, pf, d);
    }
  }

  /**
   * Every training row has a known wait_time taken from a delivered order
   * that passed the status filter, a non-negative delay, sound review flags,
   * a positive number_of_products equal to the order's item count, at most
   * that many sellers, the order's price and freight sums, and a distance
   * exactly when the distance frame was requested.
   */
  lemma TrainingRowSound(data: Dataset, isDelivered: bool, withDistance: bool, dist: D.DistanceFn, x: TrainingRow)
    requires x in TrainingData(data, isDelivered, withDistance, dist)
    ensures exists o :: o in data.orders && W.Kept(o, isDelivered) && o.orderId == x.orderId && o.delivered.Some? &&
              x.waitTime == W.RowOf(o).waitTime && x.expectedWaitTime == W.RowOf(o).expectedWaitTime &&
              x.delayVsExpected == W.RowOf(o).delayVsExpected
    ensures x.waitTime.Some? && x.delayVsExpected >= 0.0
    ensures R.FlagsSound(R.ReviewFlags(x.orderId, x.fiveStar, x.oneStar, x.score))
    ensures exists r :: r in data.reviews && r.orderId == x.orderId && r.score == x.score
    ensures x.numberOfProducts == F.CountOf(data.items, x.orderId) && x.numberOfProducts >= 1
    ensures x.numberOfSellers == |F.SellersOf(data.items, x.orderId)| && x.numberOfSellers <= x.numberOfProducts
    ensures x.price == F.Amount(data.items, x.orderId, F.ItemPrice) && x.freight == F.Amount(data.items, x.orderId, F.ItemFreight)
    ensures x.distance.Some? <==> withDistance
  {
    TrainingDataMember(data, isDelivered, withDistance, dist, x);
    var w, f, np, ns, pf, d :| BuiltFrom(data, isDelivered, withDistance, dist, x, w, f, np, ns, pf, d);
    W.WaitTimeFrameMember(data.orders, isDelivered, w);
    var o :| o in data.orders && W.Kept(o, isDelivered) && w == W.RowOf(o);
    R.ReviewFrameSound(data.reviews);
    var j :| 0 <= j < |R.ReviewFrame(data.reviews)| && R.ReviewFrame(data.reviews)[j] == f;
    assert data.reviews[j] in data.reviews;
    F.NumberProductsSpec(data.items);
    F.NumberSellersSpec(data.items);
    F.PriceAndFreightSpec(data.items);
    F.CountOfPositive(data.items, x.orderId);
    F.RowsWithIdMember(F.NumberProducts(data.items), x.orderId);
  }

  /**
   * wait_time is non-negative in the training set when no order was
   * delivered before its purchase; the code itself does not check this.
   */
  lemma TrainingWaitNonNegative(data: Dataset, isDelivered: bool, withDistance: bool, dist: D.DistanceFn, x: TrainingRow)
    requires forall o :: o in data.orders && o.delivered.Some? ==> o.purchase <= o.delivered.value
    requires x in TrainingData(data, isDelivered, withDistance, dist)
    ensures x.waitTime.Some? && x.waitTime.value >= 0.0
  {
    TrainingRowSound(data, isDelivered, withDistance, dist, x);
  }

  /** A delivered order that passes the status filter. */
  ghost predicate Timed(data: Dataset, isDelivered: bool, id: string)
  {
    exists o :: o in data.orders && W.Kept(o, isDelivered) && o.orderId == id && o.delivered.Some?
  }

  lemma TrainingIdCovered(data: Dataset, isDelivered: bool, withDistance: bool, dist: D.DistanceFn, id: string)
    requires id in Keys(TrainingData(data, isDelivered, withDistance, dist), RowKey)
    ensures Timed(data, isDelivered, id) && id in Keys(data.reviews, ReviewKey) && id in Keys(data.items, ItemKey)
    ensures withDistance ==> D.Covered(data, id)
  {
    var out := TrainingData(data, isDelivered, withDistance, dist);
    var x :| x in out && RowKey(x) == id;
    TrainingDataMember(data, isDelivered, withDistance, dist, x);
    var w, f, np, ns, pf, d :| BuiltFrom(data, isDelivered, withDistance, dist, x, w, f, np, ns, pf, d);
    W.WaitTimeFrameMember(data.orders, isDelivered, w);
    var o :| o in data.orders && W.Kept(o, isDelivered) && w == W.RowOf(o);
    R.ReviewFrameSound(data.reviews);
    assert R.FlagsKey(f) == id;
    F.CountFrameSpec(data.items, id => F.CountOf(data.items, id));
    assert np.orderId in Keys(data.items, ItemKey);
    if withDistance {
      D.DistanceFrameSpec(data, dist);
      assert D.MeanKey(d.value) == id;
    }
  }

  /** An order with an item has a row in each of the three item frames. */
  lemma ItemRowsOf(items: seq<Item>, id: string)
    requires id in Keys(items, ItemKey)
    ensures exists np :: np in F.NumberProducts(items) && np.orderId == id
    ensures exists ns :: ns in F.NumberSellers(items) && ns.orderId == id
    ensures exists pf :: pf in F.PriceAndFreight(items) && pf.orderId == id
  {
    F.NumberProductsSpec(items);
    F.NumberSellersSpec(items);
    assert F.RowsWithId(F.NumberProducts(items), id) == 1;
    assert F.RowsWithId(F.NumberSellers(items), id) == 1;
    F.RowsWithIdMember(F.NumberProducts(items), id);
    F.RowsWithIdMember(F.NumberSellers(items), id);
    F.PriceAndFreightSpec(items);
    var k :| 0 <= k < |F.PriceAndFreight(items)| && F.PriceAndFreight(items)[k].orderId == id;
    assert F.PriceAndFreight(items)[k] in F.PriceAndFreight(items);
  }

  /** A covered order has a row in the distance frame. */
  lemma DistanceRowOf(data: Dataset, dist: D.DistanceFn, id: string)
    requires D.Covered(data, id)
    ensures exists dr :: dr in D.DistanceFrame(data, dist) && dr.orderId == id
  {
    D.DistanceFrameSpec(data, dist);
    assert id in Keys(D.DistanceFrame(data, dist), D.MeanKey);
    var dr :| dr in D.DistanceFrame(data, dist) && D.MeanKey(dr) == id;
  }

  lemma CoveredTrainingId(data: Dataset, isDelivered: bool, withDistance: bool, dist: D.DistanceFn, id: string)
    requires Timed(data, isDelivered, id) && id in Keys(data.reviews, ReviewKey) && id in Keys(data.items, ItemKey)
    requires withDistance ==> D.Covered(data, id)
    ensures id in Keys(TrainingData(data, isDelivered, withDistance, dist), RowKey)
  {
    var o :| o in data.orders && W.Kept(o, isDelivered) && o.orderId == id && o.delivered.Some?;
    var w := W.RowOf(o);
    W.WaitTimeFrameMember(data.orders, isDelivered, w);
    R.ReviewFrameSound(data.reviews);
    assert id in Keys(R.ReviewFrame(data.reviews), R.FlagsKey);
    var f :| f in R.ReviewFrame(data.reviews) && R.FlagsKey(f) == id;
    ItemRowsOf(data.items, id);
    var np :| np in F.NumberProducts(data.items) && np.orderId == id;
    var ns :| ns in F.NumberSellers(data.items) && ns.orderId == id;
    var pf :| pf in F.PriceAndFreight(data.items) && pf.orderId == id;
    var d: Option<D.MeanRow> := None;
    if withDistance {
      DistanceRowOf(data, dist, id);
      var dr :| dr in D.DistanceFrame(data, dist) && dr.orderId == id;
      d := Some(dr);
    }
    var x := Assemble(w, f, np, ns, pf, d);
    assert BuiltFrom(data, isDelivered, withDistance, dist, x, w, f, np, ns, pf, d);
    TrainingDataMember(data, isDelivered, withDistance, dist, x);
    assert RowKey(x) == id;
  }

  /**
   * The training set covers exactly the orders that passed the filter and
   * were delivered, have a review and have an item, and, when the distance
   * frame is requested, also have a seller and customer both located.
   */
  lemma TrainingDataIds(data: Dataset, isDelivered: bool, withDistance: bool, dist: D.DistanceFn, id: string)
    ensures id in Keys(TrainingData(data, isDelivered, withDistance, dist), RowKey) <==>
            Timed(data, isDelivered, id) && id in Keys(data.reviews, ReviewKey) && id in Keys(data.items, ItemKey) &&
            (withDistance ==> D.Covered(data, id))
  {
    if id in Keys(TrainingData(data, isDelivered, withDistance, dist), RowKey) {
      TrainingIdCovered(data, isDelivered, withDistance, dist, id);
    }
    if Timed(data, isDelivered, id) && id in Keys(data.reviews, ReviewKey) && id in Keys(data.items, ItemKey) &&
       (withDistance ==> D.Covered(data, id))
    {
      CoveredTrainingId(data, isDelivered, withDistance, dist, id);
    }
  }
}
