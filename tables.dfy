/**
 * Typed rows of the marketplace tables. Each CSV table becomes a sequence of
 * records; a value that can be missing in the data is an Option.
 * Timestamps are whole seconds, money is whole cents.
 */
module Tables {

  datatype Option<+T> = None | Some(value: T)

  /** A row of the orders table (already parsed timestamps). */
  datatype Order = Order(
    orderId: string,
    customerId: string,
    status: string,
    purchase: int,            // order_purchase_timestamp
    estimated: int,           // order_estimated_delivery_date
    delivered: Option<int>)   // order_delivered_customer_date, missing until delivered

  /** A row of the order_items table. */
  datatype Item = Item(
    orderId: string,
    itemId: int,
    productId: string,
    sellerId: Option<string>,
    price: int,
    freight: int)

  /** A row of the order_reviews table. */
  datatype Review = Review(orderId: string, reviewId: string, score: int)

  datatype Seller = Seller(sellerId: string, zip: int, city: string, state: string)

  datatype Customer = Customer(customerId: string, zip: int, city: string, state: string)

  /** A row of the geolocation table; zip prefixes repeat. */
  datatype Geo = Geo(zip: int, lat: real, lng: real)

  /** All tables the feature pipeline reads. */
  datatype Dataset = Dataset(
    orders: seq<Order>,
    items: seq<Item>,
    reviews: seq<Review>,
    sellers: seq<Seller>,
    customers: seq<Customer>,
    geolocation: seq<Geo>)

  /** All keys of a table. */
  function Keys<T(==), K>(rows: seq<T>, key: T -> K): set<K>
  {
    set t | t in rows :: key(t)
  }

  lemma KeysSnoc<T, K>(rows: seq<T>, t: T, key: T -> K)
    ensures Keys(rows + [t], key) == Keys(rows, key) + {key(t)}
  {
    forall k | k in Keys(rows + [t], key) ensures k in Keys(rows, key) + {key(t)} {
      var x :| x in rows + [t] && key(x) == k;
      if x != t {
        assert x in rows;
      }
    }
    assert t in rows + [t];
    forall k | k in Keys(rows, key) ensures k in Keys(rows + [t], key) {
      var x :| x in rows && key(x) == k;
      assert x in rows + [t];
    }
  }

  lemma KeysCons<T, K>(rows: seq<T>, key: T -> K)
    requires rows != []
    ensures Keys(rows, key) == {key(rows[0])} + Keys(rows[1..], key)
  {
    forall k | k in Keys(rows, key) ensures k in {key(rows[0])} + Keys(rows[1..], key) {
      var x :| x in rows && key(x) == k;
      if x != rows[0] {
        assert x in rows[1..];
      }
    }
    assert rows[0] in rows;
    forall k | k in Keys(rows[1..], key) ensures k in Keys(rows, key) {
      var x :| x in rows[1..] && key(x) == k;
      assert x in rows;
    }
  }

  function OrderKey(o: Order): string { o.orderId }
  function ItemKey(i: Item): string { i.orderId }
  function ReviewKey(r: Review): string { r.orderId }
}
