/**
 * The per-order aggregates over order_items (olist/order.py):
 * get_number_products (rows per order, sorted by that count),
 * get_number_sellers (distinct sellers per order, sorted by that count) and
 * get_price_and_freight (sums per order).
 */
module ItemFeatures {

  import opened Tables
  import opened Grouping

  // ---------------------------------------------------------------------------
  // Per-order counts

  /** The number of items of order id (groupby count). */
  function CountOf(items: seq<Item>, id: string): nat
  {
    if items == [] then 0
    else CountOf(items[..|items| - 1], id) + (if items[|items| - 1].orderId == id then 1 else 0)
  }

  /** The distinct, non-null seller ids among the items of order id (groupby nunique). */
  function SellersOf(items: seq<Item>, id: string): set<string>
  {
    if items == [] then {}
    else
      var last := items[|items| - 1];
      SellersOf(items[..|items| - 1], id) + (if last.orderId == id && last.sellerId.Some? then {last.sellerId.value} else {})
  }

  /** An order has a positive item count exactly when it occurs among the items. */
  lemma {:induction false} CountOfPositive(items: seq<Item>, id: string)
    ensures CountOf(items, id) > 0 <==> id in Keys(items, ItemKey)
  {
    if items != [] {
      var init, last := items[..|items| - 1], items[|items| - 1];
      CountOfPositive(init, id);
      assert items == init + [last];
      KeysSnoc(init, last, ItemKey);
    }
  }

  /** An order cannot have more distinct sellers than items. */
  lemma {:induction false} SellersAtMostItems(items: seq<Item>, id: string)
    ensures |SellersOf(items, id)| <= CountOf(items, id)
  {
    if items != [] {
      SellersAtMostItems(items[..|items| - 1], id);
    }
  }

  /** An order with an item whose seller is known has at least one seller. */
  lemma {:induction false} SellersOfMember(items: seq<Item>, i: Item)
    requires i in items && i.sellerId.Some?
    ensures i.sellerId.value in SellersOf(items, i.orderId)
    ensures |SellersOf(items, i.orderId)| >= 1
  {
    var init := items[..|items| - 1];
    if items[|items| - 1] != i {
      assert items == init + [items[|items| - 1]];
      SellersOfMember(init, i);
    }
  }

  // ---------------------------------------------------------------------------
  // Count frames sorted by their count (number_of_products, number_of_sellers)

  datatype CountRow = CountRow(orderId: string, n: nat)

  predicate SortedByCount(rows: seq<CountRow>)
  {
    forall i, j :: 0 <= i < j < |rows| ==> rows[i].n <= rows[j].n
  }

  /** How many rows carry order_id id. */
  function RowsWithId(rows: seq<CountRow>, id: string): nat
  {
    if rows == [] then 0 else (if rows[0].orderId == id then 1 else 0) + RowsWithId(rows[1..], id)
  }

  lemma {:induction false} RowsWithIdMember(rows: seq<CountRow>, id: string)
    ensures RowsWithId(rows, id) > 0 <==> exists r :: r in rows && r.orderId == id
  {
    if rows != [] {
      RowsWithIdMember(rows[1..], id);
      assert forall r :: r in rows <==> r == rows[0] || r in rows[1..];
    }
  }

  /** Insert x before the first row whose count is not smaller. */
  function Insert(x: CountRow, rows: seq<CountRow>): seq<CountRow>
  {
    if rows == [] || x.n <= rows[0].n then [x] + rows
    else [rows[0]] + Insert(x, rows[1..])
  }

  /** sort_values on the count column. */
  function SortByCount(rows: seq<CountRow>): seq<CountRow>
  {
    if rows == [] then [] else Insert(rows[0], SortByCount(rows[1..]))
  }

  /** Inserting adds exactly x. */
  lemma {:induction false} InsertMultiset(x: CountRow, rows: seq<CountRow>)
    ensures multiset(Insert(x, rows)) == multiset(rows) + multiset{x}
  {
    if !(rows == [] || x.n <= rows[0].n) {
      InsertMultiset(x, rows[1..]);
      assert rows == [rows[0]] + rows[1..];
    }
  }

  lemma {:induction false} InsertRowsWithId(x: CountRow, rows: seq<CountRow>, id: string)
    ensures RowsWithId(Insert(x, rows), id) == RowsWithId(rows, id) + (if x.orderId == id then 1 else 0)
  {
    if rows == [] || x.n <= rows[0].n {
      assert ([x] + rows)[1..] == rows;
    } else {
      InsertRowsWithId(x, rows[1..], id);
      assert ([rows[0]] + Insert(x, rows[1..]))[1..] == Insert(x, rows[1..]);
    }
  }

  /** Inserting into a sorted frame keeps it sorted. */
  lemma {:induction false} InsertSorted(x: CountRow, rows: seq<CountRow>)
    requires SortedByCount(rows)
    ensures SortedByCount(Insert(x, rows))
  {
    if !(rows == [] || x.n <= rows[0].n) {
      InsertSorted(x, rows[1..]);
      InsertMultiset(x, rows[1..]);
      var tail := Insert(x, rows[1..]);
      forall k | 0 <= k < |tail| ensures rows[0].n <= tail[k].n {
        assert tail[k] in multiset(tail);
        if tail[k] != x {
          assert tail[k] in multiset(rows[1..]);
          var j :| 0 <= j < |rows[1..]| && rows[1..][j] == tail[k];
          assert rows[j + 1] == tail[k];
        }
      }
      assert Insert(x, rows) == [rows[0]] + tail;
    }
  }

  lemma {:induction false} SortByCountSorted(rows: seq<CountRow>)
    ensures SortedByCount(SortByCount(rows))
  {
    if rows != [] {
      SortByCountSorted(rows[1..]);
      InsertSorted(rows[0], SortByCount(rows[1..]));
    }
  }

  lemma {:induction false} SortByCountMultiset(rows: seq<CountRow>)
    ensures multiset(SortByCount(rows)) == multiset(rows)
  {
    if rows != [] {
      SortByCountMultiset(rows[1..]);
      InsertMultiset(rows[0], SortByCount(rows[1..]));
      assert rows == [rows[0]] + rows[1..];
    }
  }

  lemma {:induction false} SortByCountRowsWithId(rows: seq<CountRow>, id: string)
    ensures RowsWithId(SortByCount(rows), id) == RowsWithId(rows, id)
  {
    if rows != [] {
      SortByCountRowsWithId(rows[1..], id);
      InsertRowsWithId(rows[0], SortByCount(rows[1..]), id);
    }
  }

  /** Sorting orders the rows by count and only permutes them. */
  lemma SortByCountSpec(rows: seq<CountRow>, id: string)
    ensures SortedByCount(SortByCount(rows))
    ensures multiset(SortByCount(rows)) == multiset(rows)
    ensures RowsWithId(SortByCount(rows), id) == RowsWithId(rows, id)
  {
    SortByCountSorted(rows);
    SortByCountMultiset(rows);
    SortByCountRowsWithId(rows, id);
  }

  /** One row per group key, with the count f gives that key. */
  function CountRows(keys: seq<string>, f: string -> nat): seq<CountRow>
  {
    if keys == [] then [] else [CountRow(keys[0], f(keys[0]))] + CountRows(keys[1..], f)
  }

  lemma {:induction false} CountRowsSpec(keys: seq<string>, f: string -> nat, id: string)
    ensures RowsWithId(CountRows(keys, f), id) == Occ(keys, id)
    ensures forall r :: r in CountRows(keys, f) ==> r.n == f(r.orderId) && r.orderId in keys
  {
    if keys != [] {
      CountRowsSpec(keys[1..], f, id);
    }
  }

  /** Group the items by order_id, give each group the count f, sort by it. */
  function CountFrame(items: seq<Item>, f: string -> nat): seq<CountRow>
  {
    SortByCount(CountRows(GroupKeys(items, ItemKey), f))
  }

  /**
   * A count frame is sorted ascending by its count, holds exactly one row per
   * order id of the items and none for any other id, and each row carries
   * the count of its own order.
   */
  lemma CountFrameSpec(items: seq<Item>, f: string -> nat)
    ensures SortedByCount(CountFrame(items, f))
    ensures forall id :: RowsWithId(CountFrame(items, f), id) == if id in Keys(items, ItemKey) then 1 else 0
    ensures forall r :: r in CountFrame(items, f) ==> r.n == f(r.orderId) && r.orderId in Keys(items, ItemKey)
  {
    var unsorted := CountRows(GroupKeys(items, ItemKey), f);
    forall id ensures RowsWithId(CountFrame(items, f), id) == if id in Keys(items, ItemKey) then 1 else 0 {
      SortByCountSpec(unsorted, id);
      CountRowsSpec(GroupKeys(items, ItemKey), f, id);
      GroupKeysOnce(items, ItemKey, id);
    }
    SortByCountSpec(unsorted, "");
    CountRowsSpec(GroupKeys(items, ItemKey), f, "");
    forall r | r in CountFrame(items, f) ensures r.n == f(r.orderId) && r.orderId in Keys(items, ItemKey) {
      assert r in multiset(CountFrame(items, f));
      GroupKeysOnce(items, ItemKey, r.orderId);
    }
  }

  /** get_number_products */
  function NumberProducts(items: seq<Item>): seq<CountRow>
  {
    CountFrame(items, id => CountOf(items, id))
  }

  /** get_number_sellers */
  function NumberSellers(items: seq<Item>): seq<CountRow>
  {
    CountFrame(items, id => |SellersOf(items, id)|)
  }

  /**
   * number_of_products: one row per order_id of the items, holding the
   * number of item rows of that order, sorted ascending by that number.
   */
  lemma NumberProductsSpec(items: seq<Item>)
    ensures SortedByCount(NumberProducts(items))
    ensures forall id :: RowsWithId(NumberProducts(items), id) == if id in Keys(items, ItemKey) then 1 else 0
    ensures forall r :: r in NumberProducts(items) ==> r.n == CountOf(items, r.orderId)
  {
    CountFrameSpec(items, id => CountOf(items, id));
  }

  /**
   * number_of_sellers: one row per order_id of the items, holding the number
   * of distinct known sellers of that order, sorted ascending by it; never
   * more than that order's item count, and at least 1 when some item of the
   * order has a seller.
   */
  lemma NumberSellersSpec(items: seq<Item>)
    ensures SortedByCount(NumberSellers(items))
    ensures forall id :: RowsWithId(NumberSellers(items), id) == if id in Keys(items, ItemKey) then 1 else 0
    ensures forall r :: r in NumberSellers(items) ==>
              r.n == |SellersOf(items, r.orderId)| && r.n <= CountOf(items, r.orderId)
    ensures forall r, i :: r in NumberSellers(items) && i in items && i.orderId == r.orderId && i.sellerId.Some? ==> r.n >= 1
  {
    CountFrameSpec(items, id => |SellersOf(items, id)|);
    forall r | r in NumberSellers(items) ensures r.n <= CountOf(items, r.orderId) {
      SellersAtMostItems(items, r.orderId);
    }
    forall r, i | r in NumberSellers(items) && i in items && i.orderId == r.orderId && i.sellerId.Some?
      ensures r.n >= 1
    {
      SellersOfMember(items, i);
    }
  }

  // ---------------------------------------------------------------------------
  // Sums per order (price, freight_value)

  function ItemPrice(i: Item): int { i.price }
  function ItemFreight(i: Item): int { i.freight }

  /** The sum of v over the items of order id. */
  function Amount(items: seq<Item>, id: string, v: Item -> int): int
  {
    if items == [] then 0
    else Amount(items[..|items| - 1], id, v) + (if items[|items| - 1].orderId == id then v(items[|items| - 1]) else 0)
  }

  /** The sum of v over all items. */
  function Total(items: seq<Item>, v: Item -> int): int
  {
    if items == [] then 0 else Total(items[..|items| - 1], v) + v(items[|items| - 1])
  }

  datatype PriceRow = PriceRow(orderId: string, price: int, freight: int)

  function PriceRows(keys: seq<string>, items: seq<Item>): seq<PriceRow>
  {
    if keys == [] then []
    else [PriceRow(keys[0], Amount(items, keys[0], ItemPrice), Amount(items, keys[0], ItemFreight))]
         + PriceRows(keys[1..], items)
  }

  /** get_price_and_freight */
  function PriceAndFreight(items: seq<Item>): seq<PriceRow>
  {
    PriceRows(GroupKeys(items, ItemKey), items)
  }

  function PriceColumn(rows: seq<PriceRow>): int
  {
    if rows == [] then 0 else rows[0].price + PriceColumn(rows[1..])
  }

  function FreightColumn(rows: seq<PriceRow>): int
  {
    if rows == [] then 0 else rows[0].freight + FreightColumn(rows[1..])
  }

  /** The sum of the per-key amounts over keys. */
  function AmountOver(keys: seq<string>, items: seq<Item>, v: Item -> int): int
  {
    if keys == [] then 0 else Amount(items, keys[0], v) + AmountOver(keys[1..], items, v)
  }

  lemma {:induction false} AmountOverStep(keys: seq<string>, items: seq<Item>, x: Item, v: Item -> int)
    ensures AmountOver(keys, items + [x], v) == AmountOver(keys, items, v) + Occ(keys, x.orderId) * v(x)
  {
    if keys != [] {
      AmountOverStep(keys[1..], items, x, v);
      assert (items + [x])[..|items + [x]| - 1] == items;
    }
  }

  /** Summing the per-key amounts over keys that hold every item's order once gives the grand total. */
  lemma {:induction false} AmountOverTotal(keys: seq<string>, items: seq<Item>, v: Item -> int)
    requires forall i :: i in items ==> Occ(keys, i.orderId) == 1
    ensures AmountOver(keys, items, v) == Total(items, v)
  {
    if items == [] {
      ZeroAmounts(keys, v);
    } else {
      var init, last := items[..|items| - 1], items[|items| - 1];
      assert items == init + [last];
      AmountOverTotal(keys, init, v);
      AmountOverStep(keys, init, last, v);
    }
  }

  lemma {:induction false} ZeroAmounts(keys: seq<string>, v: Item -> int)
    ensures AmountOver(keys, [], v) == 0
  {
    if keys != [] {
      ZeroAmounts(keys[1..], v);
    }
  }

  lemma {:induction false} PriceRowsColumns(keys: seq<string>, items: seq<Item>)
    ensures PriceColumn(PriceRows(keys, items)) == AmountOver(keys, items, ItemPrice)
    ensures FreightColumn(PriceRows(keys, items)) == AmountOver(keys, items, ItemFreight)
    ensures |PriceRows(keys, items)| == |keys|
    ensures forall j :: 0 <= j < |keys| ==>
              (PriceRows(keys, items)[j] ==
               PriceRow(keys[j], Amount(items, keys[j], ItemPrice), Amount(items, keys[j], ItemFreight)))
  {
    if keys != [] {
      PriceRowsColumns(keys[1..], items);
    }
  }

  /**
   * get_price_and_freight: one row per order_id of the items, holding the
   * sums of price and freight_value over that order's items; the columns
   * add up to the totals of the whole item table.
   */
  lemma PriceAndFreightSpec(items: seq<Item>)
    ensures PriceColumn(PriceAndFreight(items)) == Total(items, ItemPrice)
    ensures FreightColumn(PriceAndFreight(items)) == Total(items, ItemFreight)
    ensures forall id :: (exists j :: 0 <= j < |PriceAndFreight(items)| && PriceAndFreight(items)[j].orderId == id)
                       <==> id in Keys(items, ItemKey)
    ensures forall j, k :: 0 <= j < k < |PriceAndFreight(items)| ==>
              PriceAndFreight(items)[j].orderId != PriceAndFreight(items)[k].orderId
    ensures forall r :: r in PriceAndFreight(items) ==>
              r.price == Amount(items, r.orderId, ItemPrice) && r.freight == Amount(items, r.orderId, ItemFreight)
  {
    var keys := GroupKeys(items, ItemKey);
    forall i | i in items ensures Occ(keys, i.orderId) == 1 {
      GroupKeysOnce(items, ItemKey, i.orderId);
    }
    AmountOverTotal(keys, items, ItemPrice);
    AmountOverTotal(keys, items, ItemFreight);
    PriceRowsColumns(keys, items);
    forall id ensures (exists j :: 0 <= j < |keys| && keys[j] == id) <==> id in Keys(items, ItemKey) {
      GroupKeysOnce(items, ItemKey, id);
    }
    GroupKeysDistinct(items, ItemKey);
  }

  /** Two items from two sellers at 10.00/20.00 with 5.00/5.00 freight give 30.00 and 10.00. */
  lemma TwoItemExample(o: string, p1: string, p2: string, s1: string, s2: string)
    requires s1 != s2
    ensures PriceAndFreight([Item(o, 1, p1, Some(s1), 1000, 500), Item(o, 2, p2, Some(s2), 2000, 500)])
            == [PriceRow(o, 3000, 1000)]
    ensures NumberProducts([Item(o, 1, p1, Some(s1), 1000, 500), Item(o, 2, p2, Some(s2), 2000, 500)])
            == [CountRow(o, 2)]
    ensures NumberSellers([Item(o, 1, p1, Some(s1), 1000, 500), Item(o, 2, p2, Some(s2), 2000, 500)])
            == [CountRow(o, 2)]
  {
    var items := [Item(o, 1, p1, Some(s1), 1000, 500), Item(o, 2, p2, Some(s2), 2000, 500)];
    var first := items[..1];
    assert first == [items[0]] && first[..0] == [];
    assert items[..|items| - 1] == first;
    assert GroupKeys(first, ItemKey) == [o];
    assert GroupKeys(items, ItemKey) == [o];
    assert CountOf(first, o) == 1;
    assert CountOf(items, o) == 2;
    assert SellersOf(first, o) == {s1};
    assert SellersOf(items, o) == {s1, s2};
    assert first[..|first| - 1] == [] && first[|first| - 1] == items[0];
    assert Amount(first, o, ItemPrice) == 1000;
    assert Amount(first, o, ItemFreight) == 500;
    assert Amount(items, o, ItemPrice) == 3000 && Amount(items, o, ItemFreight) == 1000;
    assert [o][1..] == [];
    assert PriceRows([o], items) == [PriceRow(o, 3000, 1000)];
    var fp := id => CountOf(items, id);
    assert CountRows([o], fp) == [CountRow(o, 2)];
    assert SortByCount([CountRow(o, 2)]) == [CountRow(o, 2)];
    var fs := id => |SellersOf(items, id)|;
    assert CountRows([o], fs) == [CountRow(o, 2)];
  }
}
