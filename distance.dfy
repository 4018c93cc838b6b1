/**
 * Order.get_distance_seller_customer (olist/order.py): geolocation reduced to
 * one row per zip prefix, sellers and customers geocoded by left merges, the
 * matching table inner-merged with both, incomplete rows dropped, one
 * distance per remaining row, and the mean distance per order.
 * The great-circle distance itself is the parameter `dist`.
 */
module Distance {

  import opened Tables
  import opened Joins
  import opened Grouping
  import opened Matching

  type DistanceFn = (real, real, real, real) -> real

  datatype Coord = Coord(lat: real, lng: real)

  function GeoZip(g: Geo): int { g.zip }
  function CoordOf(g: Geo): Coord { Coord(g.lat, g.lng) }

  // ---------------------------------------------------------------------------
  // One coordinate per zip prefix

  /** The first geolocation row with zip prefix z. */
  function FirstGeo(geo: seq<Geo>, z: int): Option<Geo>
  {
    if geo == [] then None
    else if geo[0].zip == z then Some(geo[0])
    else FirstGeo(geo[1..], z)
  }

  /** The coordinate the pipeline attaches to zip prefix z, if the prefix is covered. */
  function Locate(geo: seq<Geo>, z: int): Option<Coord>
  {
    match FirstGeo(geo, z)
    case None => None
    case Some(g) => Some(CoordOf(g))
  }

  /** groupby(zip prefix).first(): the first row of each zip prefix. */
  function DedupGeo(geo: seq<Geo>): seq<Geo>
  {
    if geo == [] then []
    else
      var d := DedupGeo(geo[..|geo| - 1]);
      var last := geo[|geo| - 1];
      if last.zip in Keys(d, GeoZip) then d else d + [last]
  }

  predicate ZipsDistinct(d: seq<Geo>)
  {
    forall i, j :: 0 <= i < j < |d| ==> d[i].zip != d[j].zip
  }

  lemma {:induction false} FirstGeoSpec(geo: seq<Geo>, z: int)
    ensures FirstGeo(geo, z).Some? <==> z in Keys(geo, GeoZip)
    ensures FirstGeo(geo, z).Some? ==> FirstGeo(geo, z).value in geo && FirstGeo(geo, z).value.zip == z
  {
    if geo != [] {
      FirstGeoSpec(geo[1..], z);
      KeysCons(geo, GeoZip);
    }
  }

  lemma {:induction false} FirstGeoAppend(geo: seq<Geo>, g: Geo, z: int)
    ensures FirstGeo(geo + [g], z) ==
            if FirstGeo(geo, z).Some? then FirstGeo(geo, z) else if g.zip == z then Some(g) else None
  {
    if geo != [] {
      assert (geo + [g])[1..] == geo[1..] + [g];
      FirstGeoAppend(geo[1..], g, z);
    }
  }

  /**
   * Deduplication keeps exactly one row per zip prefix present, and the row
   * kept for a prefix is the first one of the input with that prefix.
   */
  lemma {:induction false} DedupGeoSpec(geo: seq<Geo>)
    ensures Keys(DedupGeo(geo), GeoZip) == Keys(geo, GeoZip)
    ensures ZipsDistinct(DedupGeo(geo))
    ensures forall z :: FirstGeo(DedupGeo(geo), z) == FirstGeo(geo, z)
  {
    if geo != [] {
      var init, last := geo[..|geo| - 1], geo[|geo| - 1];
      assert geo == init + [last];
      DedupGeoSpec(init);
      var d := DedupGeo(init);
      KeysSnoc(init, last, GeoZip);
      KeysSnoc(d, last, GeoZip);
      forall z ensures FirstGeo(DedupGeo(geo), z) == FirstGeo(geo, z) {
        FirstGeoAppend(init, last, z);
        FirstGeoSpec(d, z);
        FirstGeoSpec(init, z);
        if last.zip !in Keys(d, GeoZip) {
          FirstGeoAppend(d, last, z);
        }
      }
      if last.zip !in Keys(d, GeoZip) {
        forall i | 0 <= i < |d| ensures d[i].zip != last.zip {
          assert d[i] in d;
        }
      }
    }
  }

  // ---------------------------------------------------------------------------
  // Geocoding sellers and customers by a left merge on the zip prefix

  /** A seller or customer id with the coordinate found for its zip prefix. */
  datatype Located = Located(id: string, coord: Option<Coord>)

  function LocatedKey(x: Located): Option<string> { Some(x.id) }

  /** rows.merge(geo, how = 'left', on the zip prefix), keeping the id and the coordinate. */
  function GeoLeftJoin<L>(rows: seq<L>, id: L -> string, zip: L -> int, d: seq<Geo>): seq<Located>
  {
    LeftPart(rows, d, zip, GeoZip, (l, g) => Located(id(l), Some(CoordOf(g))), l => Located(id(l), None))
  }

  /** Each row with the coordinate of the first geolocation row of its zip prefix. */
  function LocateAll<L>(rows: seq<L>, id: L -> string, zip: L -> int, geo: seq<Geo>): seq<Located>
  {
    if rows == [] then [] else [Located(id(rows[0]), Locate(geo, zip(rows[0])))] + LocateAll(rows[1..], id, zip, geo)
  }

  lemma {:induction false} MatchesDistinctZip<L, O>(l: L, d: seq<Geo>, zip: L -> int, both: (L, Geo) -> O)
    requires ZipsDistinct(d)
    ensures Matches(l, d, zip, GeoZip, both) ==
            if FirstGeo(d, zip(l)).Some? then [both(l, FirstGeo(d, zip(l)).value)] else []
  {
    if d != [] {
      var tail := d[1..];
      assert ZipsDistinct(tail) by {
        forall i, j | 0 <= i < j < |tail| ensures tail[i].zip != tail[j].zip {
          assert tail[i] == d[i + 1] && tail[j] == d[j + 1];
        }
      }
      MatchesDistinctZip(l, tail, zip, both);
      DistinctHead(d);
      FirstGeoSpec(tail, zip(l));
    }
  }

  lemma DistinctHead(d: seq<Geo>)
    requires d != [] && ZipsDistinct(d)
    ensures d[0].zip !in Keys(d[1..], GeoZip)
  {
    forall g | g in d[1..] ensures g.zip != d[0].zip {
      var j :| 0 <= j < |d[1..]| && d[1..][j] == g;
      assert d[j + 1] == g;
    }
  }

  /**
   * Because the geolocation frame holds each zip prefix once, the left merge
   * yields exactly one row per input row, with the first coordinate of its
   * prefix or none when the prefix is not covered.
   */
  lemma {:induction false} GeoLeftJoinSpec<L>(rows: seq<L>, id: L -> string, zip: L -> int, geo: seq<Geo>)
    ensures GeoLeftJoin(rows, id, zip, DedupGeo(geo)) == LocateAll(rows, id, zip, geo)
  {
    var d := DedupGeo(geo);
    DedupGeoSpec(geo);
    if rows != [] {
      GeoLeftJoinSpec(rows[1..], id, zip, geo);
      MatchesDistinctZip(rows[0], d, zip, (l, g) => Located(id(l), Some(CoordOf(g))));
    }
  }

  lemma {:induction false} LocateAllMember<L>(rows: seq<L>, id: L -> string, zip: L -> int, geo: seq<Geo>, x: Located)
    ensures x in LocateAll(rows, id, zip, geo) <==> exists l :: l in rows && x == Located(id(l), Locate(geo, zip(l)))
    ensures |LocateAll(rows, id, zip, geo)| == |rows|
  {
    if rows != [] {
      LocateAllMember(rows[1..], id, zip, geo, x);
      assert forall l :: l in rows <==> l == rows[0] || l in rows[1..];
    }
  }

  function SellerId(s: Seller): string { s.sellerId }
  function SellerZip(s: Seller): int { s.zip }
  function CustomerId(c: Customer): string { c.customerId }
  function CustomerZip(c: Customer): int { c.zip }

  // ---------------------------------------------------------------------------
  // Matching table joined with both geocoded frames, incomplete rows dropped

  datatype SellerMatch = SellerMatch(m: MatchRow, sellerCoord: Option<Coord>)

  /** A row of matching_geo. */
  datatype Pair = Pair(m: MatchRow, sellerCoord: Option<Coord>, customerCoord: Option<Coord>)

  function MatchSellerKey(m: MatchRow): Option<string> { m.sellerId }
  function MatchCustomerKey(x: SellerMatch): Option<string> { x.m.customerId }
  function WithSeller(m: MatchRow, s: Located): SellerMatch { SellerMatch(m, s.coord) }
  function WithCustomer(x: SellerMatch, c: Located): Pair { Pair(x.m, x.sellerCoord, c.coord) }

  function MatchingGeo(data: Dataset): seq<Pair>
  {
    var geo := DedupGeo(data.geolocation);
    var sellersGeo := GeoLeftJoin(data.sellers, SellerId, SellerZip, geo);
    var customersGeo := GeoLeftJoin(data.customers, CustomerId, CustomerZip, geo);
    var table := MatchingTable(data.orders, data.reviews, data.items);
    InnerJoin(InnerJoin(table, sellersGeo, MatchSellerKey, LocatedKey, WithSeller),
              customersGeo, MatchCustomerKey, LocatedKey, WithCustomer)
  }

  /** dropna: every column present. */
  predicate Complete(p: Pair)
  {
    p.m.customerId.Some? && p.m.reviewId.Some? && p.m.productId.Some? && p.m.sellerId.Some? &&
    p.sellerCoord.Some? && p.customerCoord.Some?
  }

  function DropIncomplete(pairs: seq<Pair>): (r: seq<Pair>)
    ensures forall p :: p in r <==> p in pairs && Complete(p)
  {
    if pairs == [] then []
    else (if Complete(pairs[0]) then [pairs[0]] else []) + DropIncomplete(pairs[1..])
  }

  function CompletePairs(data: Dataset): seq<Pair>
  {
    DropIncomplete(MatchingGeo(data))
  }

  /** p is the row of linked matching row m with seller s and customer c, both geocoded. */
  ghost predicate PairOf(data: Dataset, m: MatchRow, s: Seller, c: Customer, p: Pair)
  {
    m in MatchingTable(data.orders, data.reviews, data.items) && Linked(m) &&
    s in data.sellers && c in data.customers &&
    m.sellerId == Some(s.sellerId) && m.customerId == Some(c.customerId) &&
    Locate(data.geolocation, s.zip).Some? && Locate(data.geolocation, c.zip).Some? &&
    p == Pair(m, Locate(data.geolocation, s.zip), Locate(data.geolocation, c.zip))
  }

  /**
   * The complete rows of matching_geo are exactly the linked rows of the
   * matching table whose seller and customer exist and whose zip prefixes
   * are both covered, each with those two coordinates.
   */
  lemma CompletePairsMember(data: Dataset, p: Pair)
    ensures p in CompletePairs(data) <==> exists m, s, c :: PairOf(data, m, s, c, p)
  {
    var geo := DedupGeo(data.geolocation);
    var sellersGeo := GeoLeftJoin(data.sellers, SellerId, SellerZip, geo);
    var customersGeo := GeoLeftJoin(data.customers, CustomerId, CustomerZip, geo);
    var table := MatchingTable(data.orders, data.reviews, data.items);
    var withSellers := InnerJoin(table, sellersGeo, MatchSellerKey, LocatedKey, WithSeller);
    GeoLeftJoinSpec(data.sellers, SellerId, SellerZip, data.geolocation);
    GeoLeftJoinSpec(data.customers, CustomerId, CustomerZip, data.geolocation);
    InnerJoinMember(withSellers, customersGeo, MatchCustomerKey, LocatedKey, WithCustomer, p);
    if p in CompletePairs(data) {
      var x, cg :| x in withSellers && cg in customersGeo && MatchCustomerKey(x) == LocatedKey(cg) && p == WithCustomer(x, cg);
      InnerJoinMember(table, sellersGeo, MatchSellerKey, LocatedKey, WithSeller, x);
      var m, sg :| m in table && sg in sellersGeo && MatchSellerKey(m) == LocatedKey(sg) && x == WithSeller(m, sg);
      LocateAllMember(data.sellers, SellerId, SellerZip, data.geolocation, sg);
      LocateAllMember(data.customers, CustomerId, CustomerZip, data.geolocation, cg);
      var s :| s in data.sellers && sg == Located(SellerId(s), Locate(data.geolocation, SellerZip(s)));
      var c :| c in data.customers && cg == Located(CustomerId(c), Locate(data.geolocation, CustomerZip(c)));
      assert PairOf(data, m, s, c, p);
    }
    if exists m, s, c :: PairOf(data, m, s, c, p) {
      var m, s, c :| PairOf(data, m, s, c, p);
      var sg := Located(s.sellerId, Locate(data.geolocation, s.zip));
      var cg := Located(c.customerId, Locate(data.geolocation, c.zip));
      LocateAllMember(data.sellers, SellerId, SellerZip, data.geolocation, sg);
      LocateAllMember(data.customers, CustomerId, CustomerZip, data.geolocation, cg);
      InnerJoinMember(table, sellersGeo, MatchSellerKey, LocatedKey, WithSeller, WithSeller(m, sg));
      assert p == WithCustomer(WithSeller(m, sg), cg);
    }
  }

  // ---------------------------------------------------------------------------
  // Distances and their mean per order

  datatype DistanceRow = DistanceRow(orderId: string, distance: real)

  function DistanceKey(r: DistanceRow): string { r.orderId }

  /** haversine_distance(lng_seller, lat_seller, lng_customer, lat_customer) of a complete row. */
  function PairDistance(p: Pair, dist: DistanceFn): DistanceRow
    requires Complete(p)
  {
    var s, c := p.sellerCoord.value, p.customerCoord.value;
    DistanceRow(p.m.orderId, dist(s.lng, s.lat, c.lng, c.lat))
  }

  function PairDistances(pairs: seq<Pair>, dist: DistanceFn): seq<DistanceRow>
    requires forall p :: p in pairs ==> Complete(p)
  {
    seq(|pairs|, j requires 0 <= j < |pairs| => PairDistance(pairs[j], dist))
  }

  function Sum(vs: seq<real>): real
  {
    if vs == [] then 0.0 else vs[0] + Sum(vs[1..])
  }

  function Mean(vs: seq<real>): real
  {
    if vs == [] then 0.0 else Sum(vs) / |vs| as real
  }

  function Min(vs: seq<real>): (r: real)
    requires vs != []
    ensures r in vs && forall i :: 0 <= i < |vs| ==> r <= vs[i]
  {
    if |vs| == 1 then vs[0]
    else
      var m := Min(vs[1..]);
      assert forall i :: 1 <= i < |vs| ==> vs[i] == vs[1..][i - 1];
      if vs[0] <= m then vs[0] else m
  }

  function Max(vs: seq<real>): (r: real)
    requires vs != []
    ensures r in vs && forall i :: 0 <= i < |vs| ==> vs[i] <= r
  {
    if |vs| == 1 then vs[0]
    else
      var m := Max(vs[1..]);
      assert forall i :: 1 <= i < |vs| ==> vs[i] == vs[1..][i - 1];
      if m <= vs[0] then vs[0] else m
  }

  lemma {:induction false} SumAtLeast(vs: seq<real>, m: real)
    requires forall i :: 0 <= i < |vs| ==> m <= vs[i]
    ensures (|vs| as real) * m <= Sum(vs)
  {
    if vs != [] {
      var tail := vs[1..];
      assert forall i :: 0 <= i < |tail| ==> tail[i] == vs[i + 1];
      SumAtLeast(tail, m);
      assert (|vs| as real) * m == (|tail| as real) * m + m;
    }
  }

  lemma {:induction false} SumAtMost(vs: seq<real>, m: real)
    requires forall i :: 0 <= i < |vs| ==> vs[i] <= m
    ensures Sum(vs) <= (|vs| as real) * m
  {
    if vs != [] {
      var tail := vs[1..];
      assert forall i :: 0 <= i < |tail| ==> tail[i] == vs[i + 1];
      SumAtMost(tail, m);
      assert (|vs| as real) * m == (|tail| as real) * m + m;
    }
  }

  /** The mean of a non-empty sequence within [lo, hi] is within [lo, hi]. */
  lemma MeanBetween(vs: seq<real>, lo: real, hi: real)
    requires vs != []
    requires forall i :: 0 <= i < |vs| ==> lo <= vs[i] <= hi
    ensures lo <= Mean(vs) <= hi
  {
    SumAtLeast(vs, lo);
    SumAtMost(vs, hi);
    DivBounds(Sum(vs), |vs| as real, lo, hi);
  }

  /** The mean of a non-empty sequence lies between its least and greatest element. */
  lemma MeanBounds(vs: seq<real>)
    requires vs != []
    ensures Min(vs) <= Mean(vs) <= Max(vs)
  {
    MeanBetween(vs, Min(vs), Max(vs));
  }

  lemma DivBounds(s: real, n: real, lo: real, hi: real)
    requires n > 0.0 && n * lo <= s <= n * hi
    ensures lo <= s / n <= hi
  {
    assert s / n * n == s;
  }

  /** The distances of the rows of order k, in order. */
  function GroupValues(rows: seq<DistanceRow>, k: string): seq<real>
  {
    if rows == [] then []
    else (if rows[0].orderId == k then [rows[0].distance] else []) + GroupValues(rows[1..], k)
  }

  lemma {:induction false} GroupValuesMember(rows: seq<DistanceRow>, k: string, v: real)
    ensures v in GroupValues(rows, k) <==> DistanceRow(k, v) in rows
  {
    if rows != [] {
      GroupValuesMember(rows[1..], k, v);
    }
  }

  datatype MeanRow = MeanRow(orderId: string, distance: real)

  function MeanKey(r: MeanRow): string { r.orderId }

  /** groupby('order_id').agg(mean) */
  function MeanByOrder(rows: seq<DistanceRow>): seq<MeanRow>
  {
    var keys := GroupKeys(rows, DistanceKey);
    seq(|keys|, j requires 0 <= j < |keys| => MeanRow(keys[j], Mean(GroupValues(rows, keys[j]))))
  }

  /**
   * The mean frame has one row per order id of the distances and no other,
   * and each order's value lies between the least and the greatest of that
   * order's distances.
   */
  lemma MeanByOrderSpec(rows: seq<DistanceRow>)
    ensures Keys(MeanByOrder(rows), MeanKey) == Keys(rows, DistanceKey)
    ensures forall j, k :: 0 <= j < k < |MeanByOrder(rows)| ==> MeanByOrder(rows)[j].orderId != MeanByOrder(rows)[k].orderId
    ensures forall r :: r in MeanByOrder(rows) ==>
              GroupValues(rows, r.orderId) != [] &&
              Min(GroupValues(rows, r.orderId)) <= r.distance <= Max(GroupValues(rows, r.orderId))
  {
    var keys := GroupKeys(rows, DistanceKey);
    var out := MeanByOrder(rows);
    GroupKeysDistinct(rows, DistanceKey);
    forall id | id in Keys(rows, DistanceKey) ensures id in Keys(out, MeanKey) {
      GroupKeysOnce(rows, DistanceKey, id);
      var j :| 0 <= j < |keys| && keys[j] == id;
      assert out[j] in out;
    }
    forall r | r in out
      ensures r.orderId in Keys(rows, DistanceKey)
      ensures GroupValues(rows, r.orderId) != [] &&
              Min(GroupValues(rows, r.orderId)) <= r.distance <= Max(GroupValues(rows, r.orderId))
    {
      var j :| 0 <= j < |out| && out[j] == r;
      GroupKeysOnce(rows, DistanceKey, keys[j]);
      var x :| x in rows && DistanceKey(x) == keys[j];
      GroupValuesMember(rows, keys[j], x.distance);
      MeanBounds(GroupValues(rows, keys[j]));
    }
  }

  /** The frame get_distance_seller_customer returns. */
  function DistanceFrame(data: Dataset, dist: DistanceFn): seq<MeanRow>
  {
    MeanByOrder(PairDistances(CompletePairs(data), dist))
  }

  /** get_distance_seller_customer: the joins, then the per-row distance loop, then the mean. */
  method GetDistanceSellerCustomer(data: Dataset, dist: DistanceFn) returns (frame: seq<MeanRow>)
    ensures frame == DistanceFrame(data, dist)
  {
    var pairs := CompletePairs(data);
    var rows: seq<DistanceRow> := [];
    for j := 0 to |pairs|
      invariant |rows| == j
      invariant forall k :: 0 <= k < j ==> rows[k] == PairDistance(pairs[k], dist)
    {
      var p := pairs[j];
      assert p in pairs;
      var s, c := p.sellerCoord.value, p.customerCoord.value;
      rows := rows + [DistanceRow(p.m.orderId, dist(s.lng, s.lat, c.lng, c.lat))];
    }
    assert rows == PairDistances(pairs, dist);
    frame := MeanByOrder(rows);
  }

  /** An order covered by the distance frame: a review, an item sold by a known seller, both zip prefixes covered. */
  ghost predicate Covered(data: Dataset, id: string)
  {
    exists o, r, i, s, c :: CoverOf(data, id, o, r, i, s, c)
  }

  ghost predicate CoverOf(data: Dataset, id: string, o: Order, r: Review, i: Item, s: Seller, c: Customer)
  {
    o in data.orders && r in data.reviews && i in data.items && s in data.sellers && c in data.customers &&
    o.orderId == id && r.orderId == id && i.orderId == id &&
    i.sellerId == Some(s.sellerId) && c.customerId == o.customerId &&
    Locate(data.geolocation, s.zip).Some? && Locate(data.geolocation, c.zip).Some?
  }

  lemma DistanceRowCovered(data: Dataset, dist: DistanceFn, id: string)
    requires id in Keys(PairDistances(CompletePairs(data), dist), DistanceKey)
    ensures Covered(data, id)
  {
    var pairs := CompletePairs(data);
    var rows := PairDistances(pairs, dist);
    var x :| x in rows && DistanceKey(x) == id;
    var j :| 0 <= j < |rows| && rows[j] == x;
    var p := pairs[j];
    assert p in pairs;
    CompletePairsMember(data, p);
    var m, s, c :| PairOf(data, m, s, c, p);
    LinkedRows(data.orders, data.reviews, data.items, m);
    var o, r, i :| o in data.orders && r in data.reviews && i in data.items &&
          r.orderId == o.orderId && i.orderId == o.orderId &&
          m == MatchRow(Some(o.customerId), o.orderId, Some(r.reviewId), Some(i.productId), i.sellerId);
    assert CoverOf(data, id, o, r, i, s, c);
  }

  lemma CoveredDistanceRow(data: Dataset, dist: DistanceFn, id: string)
    requires Covered(data, id)
    ensures id in Keys(PairDistances(CompletePairs(data), dist), DistanceKey)
  {
    var pairs := CompletePairs(data);
    var rows := PairDistances(pairs, dist);
    var o, r, i, s, c :| CoverOf(data, id, o, r, i, s, c);
    var m := MatchRow(Some(o.customerId), o.orderId, Some(r.reviewId), Some(i.productId), i.sellerId);
    LinkedRows(data.orders, data.reviews, data.items, m);
    var p := Pair(m, Locate(data.geolocation, s.zip), Locate(data.geolocation, c.zip));
    assert PairOf(data, m, s, c, p);
    CompletePairsMember(data, p);
    var j :| 0 <= j < |pairs| && pairs[j] == p;
    assert rows[j] in rows;
  }

  /**
   * The distance frame has one row per order, exactly for the covered
   * orders, and each order's distance lies between the least and the
   * greatest distance of its (seller, customer) rows.
   */
  lemma DistanceFrameSpec(data: Dataset, dist: DistanceFn)
    ensures forall id :: id in Keys(DistanceFrame(data, dist), MeanKey) <==> Covered(data, id)
    ensures forall j, k :: 0 <= j < k < |DistanceFrame(data, dist)| ==>
              DistanceFrame(data, dist)[j].orderId != DistanceFrame(data, dist)[k].orderId
    ensures forall r :: r in DistanceFrame(data, dist) ==>
              var vs := GroupValues(PairDistances(CompletePairs(data), dist), r.orderId);
              vs != [] && Min(vs) <= r.distance <= Max(vs)
  {
    var rows := PairDistances(CompletePairs(data), dist);
    MeanByOrderSpec(rows);
    forall id ensures id in Keys(rows, DistanceKey) <==> Covered(data, id) {
      if id in Keys(rows, DistanceKey) {
        DistanceRowCovered(data, dist, id);
      }
      if Covered(data, id) {
        CoveredDistanceRow(data, dist, id);
      }
    }
  }
}
