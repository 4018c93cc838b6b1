/**
 * Order.get_wait_time (olist/order.py): optional filter on delivered orders,
 * then elapsed times in days and the lateness-only delay.
 */
module WaitTime {

  import opened Tables

  const SecondsPerDay: int := 86400
  const DeliveredStatus: string := "delivered"

  /** An elapsed time in seconds divided by one day. */
  function Days(seconds: int): real
  {
    seconds as real / SecondsPerDay as real
  }

  function Max(a: real, b: real): real
  {
    if a < b then b else a
  }

  /** The four returned columns; wait_time is missing for an undelivered order. */
  datatype WaitRow = WaitRow(orderId: string, waitTime: Option<real>, expectedWaitTime: real, delayVsExpected: real)

  /**
   * absolute_delay: a negative delay (a late delivery) becomes its magnitude;
   * any other value becomes 0. A missing delay compares false with 0 and so
   * also becomes 0.
   */
  function AbsoluteDelay(delay: Option<real>): (r: real)
    ensures r >= 0.0
  {
    if delay.Some? && delay.value < 0.0 then -delay.value else 0.0
  }

  /** The status filter: with isDelivered only delivered orders are kept. */
  predicate Kept(o: Order, isDelivered: bool)
  {
    !isDelivered || o.status == DeliveredStatus
  }

  /** The orders left by the filter, in their original order. */
  function SelectOrders(orders: seq<Order>, isDelivered: bool): seq<Order>
  {
    if orders == [] then []
    else
      var last := orders[|orders| - 1];
      SelectOrders(orders[..|orders| - 1], isDelivered) + (if Kept(last, isDelivered) then [last] else [])
  }

  /** The computed columns of one order. */
  function RowOf(o: Order): WaitRow
  {
    var delay := if o.delivered.Some? then Some(Days(o.estimated - o.delivered.value)) else None;
    WaitRow(
      o.orderId,
      if o.delivered.Some? then Some(Days(o.delivered.value - o.purchase)) else None,
      Days(o.estimated - o.purchase),
      AbsoluteDelay(delay))
  }

  /** The frame get_wait_time returns. */
  function WaitTimeFrame(orders: seq<Order>, isDelivered: bool): seq<WaitRow>
  {
    var sel := SelectOrders(orders, isDelivered);
    seq(|sel|, j requires 0 <= j < |sel| => RowOf(sel[j]))
  }

  /**
   * The filter keeps every order that passes it, as often as it occurs, and
   * nothing else; without the filter every order is returned in order.
   */
  lemma {:induction false} SelectOrdersCounts(orders: seq<Order>, isDelivered: bool)
    ensures forall o :: multiset(SelectOrders(orders, isDelivered))[o] ==
                        if Kept(o, isDelivered) then multiset(orders)[o] else 0
    ensures !isDelivered ==> SelectOrders(orders, isDelivered) == orders
  {
    if orders != [] {
      var init, last := orders[..|orders| - 1], orders[|orders| - 1];
      SelectOrdersCounts(init, isDelivered);
      assert orders == init + [last];
    }
  }

  /** With the filter on, every returned row comes from a delivered order; and the converse. */
  lemma SelectedAreDelivered(orders: seq<Order>, isDelivered: bool)
    ensures forall o :: o in SelectOrders(orders, isDelivered) <==> o in orders && Kept(o, isDelivered)
    ensures isDelivered ==> forall o :: o in SelectOrders(orders, isDelivered) ==> o.status == DeliveredStatus
  {
    SelectOrdersCounts(orders, isDelivered);
    forall o ensures o in SelectOrders(orders, isDelivered) <==> o in orders && Kept(o, isDelivered) {
      assert o in SelectOrders(orders, isDelivered) <==> multiset(SelectOrders(orders, isDelivered))[o] > 0;
      assert o in orders <==> multiset(orders)[o] > 0;
    }
  }

  /** Row j of the frame is order j of the filtered orders, with its order_id kept. */
  lemma WaitTimeFrameRows(orders: seq<Order>, isDelivered: bool)
    ensures |WaitTimeFrame(orders, isDelivered)| == |SelectOrders(orders, isDelivered)|
    ensures forall j :: 0 <= j < |WaitTimeFrame(orders, isDelivered)| ==>
              WaitTimeFrame(orders, isDelivered)[j] == RowOf(SelectOrders(orders, isDelivered)[j]) &&
              WaitTimeFrame(orders, isDelivered)[j].orderId == SelectOrders(orders, isDelivered)[j].orderId
    ensures !isDelivered ==> |WaitTimeFrame(orders, isDelivered)| == |orders|
  {
    SelectOrdersCounts(orders, isDelivered);
  }

  /** The frame's rows are exactly the rows of the orders that pass the filter. */
  lemma WaitTimeFrameMember(orders: seq<Order>, isDelivered: bool, w: WaitRow)
    ensures w in WaitTimeFrame(orders, isDelivered) <==> exists o :: o in orders && Kept(o, isDelivered) && w == RowOf(o)
  {
    var sel := SelectOrders(orders, isDelivered);
    var frame := WaitTimeFrame(orders, isDelivered);
    SelectedAreDelivered(orders, isDelivered);
    if w in frame {
      var j :| 0 <= j < |frame| && frame[j] == w;
      assert sel[j] in sel;
    }
    if exists o :: o in orders && Kept(o, isDelivered) && w == RowOf(o) {
      var o :| o in orders && Kept(o, isDelivered) && w == RowOf(o);
      var j :| 0 <= j < |sel| && sel[j] == o;
      assert frame[j] == w;
    }
  }

  /**
   * For a delivered order: wait_time and expected_wait_time are the elapsed
   * days, delay_vs_expected is the lateness max(0, wait - expected), and it
   * is 0 exactly when delivery was on time or early.
   */
  lemma DeliveredRow(o: Order)
    requires o.delivered.Some?
    ensures RowOf(o).waitTime == Some(Days(o.delivered.value - o.purchase))
    ensures RowOf(o).expectedWaitTime == Days(o.estimated - o.purchase)
    ensures RowOf(o).delayVsExpected == Max(0.0, RowOf(o).waitTime.value - RowOf(o).expectedWaitTime)
    ensures RowOf(o).delayVsExpected == 0.0 <==> o.delivered.value <= o.estimated
    ensures o.delivered.value > o.estimated ==> RowOf(o).delayVsExpected == Days(o.delivered.value - o.estimated)
  {
    var d, e, p := o.delivered.value, o.estimated, o.purchase;
    assert Days(e - d) == Days(e - p) - Days(d - p);
    assert Days(e - d) < 0.0 <==> e < d;
  }

  /** An order not yet delivered has no wait_time and a delay of 0. */
  lemma UndeliveredRow(o: Order)
    requires o.delivered.None?
    ensures RowOf(o).waitTime.None? && RowOf(o).delayVsExpected == 0.0
    ensures RowOf(o).expectedWaitTime == Days(o.estimated - o.purchase)
  {
  }

  /** get_wait_time: filter, then compute the columns over the kept rows. */
  method GetWaitTime(orders: seq<Order>, isDelivered: bool) returns (rows: seq<WaitRow>)
    ensures rows == WaitTimeFrame(orders, isDelivered)
  {
    var selected: seq<Order> := [];
    for i := 0 to |orders|
      invariant selected == SelectOrders(orders[..i], isDelivered)
    {
      assert orders[..i + 1][..i] == orders[..i];
      if !isDelivered || orders[i].status == DeliveredStatus {
        selected := selected + [orders[i]];
      }
    }
    assert orders[..|orders|] == orders;
    rows := [];
    for j := 0 to |selected|
      invariant |rows| == j
      invariant forall k :: 0 <= k < j ==> rows[k] == RowOf(selected[k])
    {
      var o := selected[j];
      var wait := if o.delivered.Some? then Some(Days(o.delivered.value - o.purchase)) else None;
      var delay := if o.delivered.Some? then Some(Days(o.estimated - o.delivered.value)) else None;
      var expected := Days(o.estimated - o.purchase);
      rows := rows + [WaitRow(o.orderId, wait, expected, AbsoluteDelay(delay))];
    }
  }
}
