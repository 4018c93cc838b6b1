/**
 * get_matching_table (olist/data.py): orders outer-merged with reviews, then
 * with order items, both on order_id. The result has exactly the five
 * columns of MatchRow.
 */
module Matching {

  import opened Tables
  import opened Joins

  /** The frame after the first outer merge: customer_id, order_id, review_id. */
  datatype OrderReview = OrderReview(customerId: Option<string>, orderId: string, reviewId: Option<string>)

  /** A row of the matching table. */
  datatype MatchRow = MatchRow(
    customerId: Option<string>,
    orderId: string,
    reviewId: Option<string>,
    productId: Option<string>,
    sellerId: Option<string>)

  function OrderReviewKey(x: OrderReview): string { x.orderId }
  function MatchKey(m: MatchRow): string { m.orderId }

  function OrderWithReview(o: Order, r: Review): OrderReview { OrderReview(Some(o.customerId), o.orderId, Some(r.reviewId)) }
  function OrderOnly(o: Order): OrderReview { OrderReview(Some(o.customerId), o.orderId, None) }
  function ReviewOnly(r: Review): OrderReview { OrderReview(None, r.orderId, Some(r.reviewId)) }

  function WithItem(x: OrderReview, i: Item): MatchRow { MatchRow(x.customerId, x.orderId, x.reviewId, Some(i.productId), i.sellerId) }
  function WithoutItem(x: OrderReview): MatchRow { MatchRow(x.customerId, x.orderId, x.reviewId, None, None) }
  function ItemOnly(i: Item): MatchRow { MatchRow(None, i.orderId, None, Some(i.productId), i.sellerId) }

  function OrdersWithReviews(orders: seq<Order>, reviews: seq<Review>): seq<OrderReview>
  {
    OuterJoin(orders, reviews, OrderKey, ReviewKey, OrderWithReview, OrderOnly, ReviewOnly)
  }

  function MatchingTable(orders: seq<Order>, reviews: seq<Review>, items: seq<Item>): seq<MatchRow>
  {
    OuterJoin(OrdersWithReviews(orders, reviews), items, OrderReviewKey, ItemKey, WithItem, WithoutItem, ItemOnly)
  }

  /** Every order_id of orders, reviews or items appears in the matching table, and no other. */
  lemma MatchingTableIds(orders: seq<Order>, reviews: seq<Review>, items: seq<Item>)
    ensures Keys(MatchingTable(orders, reviews, items), MatchKey)
            == Keys(orders, OrderKey) + Keys(reviews, ReviewKey) + Keys(items, ItemKey)
  {
    OuterJoinKeys(orders, reviews, OrderKey, ReviewKey, OrderWithReview, OrderOnly, ReviewOnly, OrderReviewKey);
    OuterJoinKeys(OrdersWithReviews(orders, reviews), items, OrderReviewKey, ItemKey, WithItem, WithoutItem, ItemOnly, MatchKey);
  }

  /** An order without any review still appears, with review_id null. */
  lemma OrderWithoutReviewKept(orders: seq<Order>, reviews: seq<Review>, items: seq<Item>, o: Order)
    requires o in orders && o.orderId !in Keys(reviews, ReviewKey)
    ensures exists m :: m in MatchingTable(orders, reviews, items) &&
              m.orderId == o.orderId && m.customerId == Some(o.customerId) && m.reviewId == None
  {
    var x := OrderOnly(o);
    OuterJoinMember(orders, reviews, OrderKey, ReviewKey, OrderWithReview, OrderOnly, ReviewOnly, x);
    var ors := OrdersWithReviews(orders, reviews);
    if x.orderId in Keys(items, ItemKey) {
      var i :| i in items && ItemKey(i) == x.orderId;
      OuterJoinMember(ors, items, OrderReviewKey, ItemKey, WithItem, WithoutItem, ItemOnly, WithItem(x, i));
    } else {
      OuterJoinMember(ors, items, OrderReviewKey, ItemKey, WithItem, WithoutItem, ItemOnly, WithoutItem(x));
    }
  }

  /** An order without any item still appears, with product_id and seller_id null. */
  lemma OrderWithoutItemKept(orders: seq<Order>, reviews: seq<Review>, items: seq<Item>, o: Order)
    requires o in orders && o.orderId !in Keys(items, ItemKey)
    ensures exists m :: m in MatchingTable(orders, reviews, items) &&
              m.orderId == o.orderId && m.customerId == Some(o.customerId) &&
              m.productId == None && m.sellerId == None
  {
    var ors := OrdersWithReviews(orders, reviews);
    var x: OrderReview;
    if o.orderId in Keys(reviews, ReviewKey) {
      var r :| r in reviews && ReviewKey(r) == o.orderId;
      x := OrderWithReview(o, r);
    } else {
      x := OrderOnly(o);
    }
    OuterJoinMember(orders, reviews, OrderKey, ReviewKey, OrderWithReview, OrderOnly, ReviewOnly, x);
    OuterJoinMember(ors, items, OrderReviewKey, ItemKey, WithItem, WithoutItem, ItemOnly, WithoutItem(x));
  }

  /** A row carrying a customer, a review and a product. */
  predicate Linked(m: MatchRow)
  {
    m.customerId.Some? && m.reviewId.Some? && m.productId.Some?
  }

  /**
   * The rows with customer, review and product all present are exactly the
   * triples of an order, one of its reviews and one of its items.
   */
  lemma LinkedRows(orders: seq<Order>, reviews: seq<Review>, items: seq<Item>, m: MatchRow)
    ensures m in MatchingTable(orders, reviews, items) && Linked(m) <==>
            exists o, r, i :: o in orders && r in reviews && i in items &&
              r.orderId == o.orderId && i.orderId == o.orderId &&
              m == MatchRow(Some(o.customerId), o.orderId, Some(r.reviewId), Some(i.productId), i.sellerId)
  {
    var ors := OrdersWithReviews(orders, reviews);
    OuterJoinMember(ors, items, OrderReviewKey, ItemKey, WithItem, WithoutItem, ItemOnly, m);
    if m in MatchingTable(orders, reviews, items) && Linked(m) {
      var x, i :| x in ors && i in items && OrderReviewKey(x) == ItemKey(i) && m == WithItem(x, i);
      OuterJoinMember(orders, reviews, OrderKey, ReviewKey, OrderWithReview, OrderOnly, ReviewOnly, x);
      var o, r :| o in orders && r in reviews && OrderKey(o) == ReviewKey(r) && x == OrderWithReview(o, r);
      assert m == MatchRow(Some(o.customerId), o.orderId, Some(r.reviewId), Some(i.productId), i.sellerId);
    }
    if exists o, r, i :: o in orders && r in reviews && i in items &&
         r.orderId == o.orderId && i.orderId == o.orderId &&
         m == MatchRow(Some(o.customerId), o.orderId, Some(r.reviewId), Some(i.productId), i.sellerId)
    {
      var o, r, i :| o in orders && r in reviews && i in items &&
         r.orderId == o.orderId && i.orderId == o.orderId &&
         m == MatchRow(Some(o.customerId), o.orderId, Some(r.reviewId), Some(i.productId), i.sellerId);
      var x := OrderWithReview(o, r);
      OuterJoinMember(orders, reviews, OrderKey, ReviewKey, OrderWithReview, OrderOnly, ReviewOnly, x);
      assert m == WithItem(x, i);
    }
  }
}
