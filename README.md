# Olist order features in Dafny

This project models the feature pipeline of the Olist marketplace project. The pipeline turns the marketplace tables (orders, order items, reviews, sellers, customers, geolocation) into one training row per order. It also builds the table-loading dictionary and the order/review/item matching table that feed it.

Each CSV table is a sequence of records (`tables.dfy`):
- A timestamp is a whole number of seconds, and a value that can be missing is an `Option`.
- Money is whole cents.
- Elapsed days are `real` (seconds / 86400).
- A pandas merge on `order_id` is a generic join over sequences (`joins.dfy`). The inner join keeps each matching pair of rows; the outer join also keeps unmatched rows of either side, with the other side's columns null.
- A `groupby` on a string key walks the distinct keys (`grouping.dfy`).

Modules:
- `FileKeys` (`olist/data.py`): the file-name → table-key rewriting and the loop of `get_data` that fills the dictionary. `LoadData` is a method updating a map; reading a file is the parameter `read`.
- `Matching` (`olist/data.py`): `get_matching_table`, the outer merge of orders with reviews and then with items.
- `WaitTime` (`olist/order.py`): `get_wait_time`, a method with the status-filter loop and the column loop, proved equal to `WaitTimeFrame`.
- `Reviews` (`olist/order.py`): `get_review_score`, a method adding the two indicator columns in loops, proved equal to `ReviewFrame`.
- `ItemFeatures` (`olist/order.py`): `get_number_products`, `get_number_sellers` and `get_price_and_freight`, as functions.
- `Distance` (`olist/order.py`): `get_distance_seller_customer`. It deduplicates geolocation by zip prefix, left-merges sellers and customers, inner-merges them into the matching table, drops incomplete rows, computes one distance per row in a loop and takes the mean per order. The great-circle distance is the parameter `dist`.
- `Training` (`olist/order.py`): `get_training_data`, the inner-merge chain, the optional distance merge and `dropna`.

Facts about the code that the model follows:
- The docstring of `get_training_data` lists `order_status`, but `get_wait_time` never returns it (olist/order.py:71 against olist/order.py:197-200). `TrainingRow` has no status column.
- Nothing checks that a merge is non-empty: an inner merge with no matching keys gives an empty training set, and the model does the same. The code does fail on other bad input: `os.listdir` raises on a missing directory (olist/data.py:20), table and column lookups raise `KeyError` (olist/order.py:31, olist/data.py:42-44), and `pd.to_datetime` raises on a malformed date (olist/order.py:38-43). Those inputs cannot be represented in the model (see "## Left out").
- `wait_time >= 0` holds only if no delivery comes before its purchase; the code does not check this. `Training.TrainingWaitNonNegative` proves the bound under exactly that assumption about the data.

## Model

| member | source | states |
|---|---|---|
| FileKeys.RemoveAll | olist/data.py:26 | Python's `str.replace(p, '')` never lengthens the string and leaves a string without `p` unchanged |
| FileKeys.KeyNoLonger | olist/data.py:26 | the derived key is never longer than the file name |
| FileKeys.KeyOfPlainName | olist/data.py:26 | a name containing none of `olist_`, `_dataset.csv`, `.csv` is its own key |
| FileKeys.KeyOfDatasetFile | olist/data.py:22-26 | `olist_X_dataset.csv` has key X, when X followed by `_dataset.csv` does not contain `olist_` and X contains neither `_dataset.csv` nor `.csv` |
| FileKeys.KeyOfCsvFile | olist/data.py:22-26 | `X.csv` has key X, when X followed by `.csv` contains neither `olist_` nor `_dataset.csv` and X does not contain `.csv` |
| FileKeys.KeyOfSimpleDatasetFile | olist/data.py:22-26 | `olist_X_dataset.csv` has key X for any X without `l` and `.` |
| FileKeys.MatchingTableKeys | olist/data.py:42-44 | the orders, items and reviews files are stored under the keys `orders`, `order_items`, `order_reviews` that the matching table looks up |
| FileKeys.LoadData | olist/data.py:19-31 | the dictionary's keys are exactly the keys of the listed files; each key holds the table of the last listed file with that key |
| Joins.InnerJoinMember | olist/order.py:169-170 | a row of an inner merge is exactly the combination of a left and a right row with equal keys |
| Joins.OuterJoinMember | olist/data.py:46-48 | a row of an outer merge is a matched pair, or an unmatched left row, or an unmatched right row |
| Joins.InnerJoinKeys | olist/order.py:203-207 | the keys of an inner merge are the intersection of both sides' keys |
| Joins.OuterJoinKeys | olist/data.py:46-48 | the keys of an outer merge are the union of both sides' keys |
| Grouping.GroupKeysOnce | olist/order.py:111 | groupby lists every key of the table exactly once and no other key |
| Grouping.GroupKeysDistinct | olist/order.py:126 | no group key is listed twice |
| Matching.MatchingTableIds | olist/data.py:46-48 | every order_id of orders, reviews or items appears in the matching table, and no other |
| Matching.OrderWithoutReviewKept | olist/data.py:47 | an order without a review still appears, with review_id null |
| Matching.OrderWithoutItemKept | olist/data.py:48 | an order without an item still appears, with product_id and seller_id null |
| Matching.LinkedRows | olist/data.py:42-50 | the rows with customer, review and product all present are exactly the (order, review, item) triples of one order_id, with the five columns taken from them |
| WaitTime.AbsoluteDelay | olist/order.py:57-61 | the clamped delay is never negative |
| WaitTime.SelectOrdersCounts | olist/order.py:31-35 | the status filter keeps every delivered order as often as it occurs and nothing else; without the filter all orders are kept in order |
| WaitTime.SelectedAreDelivered | olist/order.py:34-35 | with is_delivered, every kept order has status `delivered`, and every delivered order is kept |
| WaitTime.WaitTimeFrameRows | olist/order.py:31-71 | row j of the frame is computed from kept order j, keeping its order_id; without the filter there is one row per order |
| WaitTime.WaitTimeFrameMember | olist/order.py:31-71 | the frame's rows are exactly the computed rows of the kept orders |
| WaitTime.DeliveredRow | olist/order.py:45-69 | wait_time and expected_wait_time are the elapsed days; delay_vs_expected is max(0, wait − expected), is 0 exactly for on-time or early delivery, and is the lateness in days otherwise |
| WaitTime.UndeliveredRow | olist/order.py:48-64 | an order without a delivery date has no wait_time and a delay of 0 |
| WaitTime.GetWaitTime | olist/order.py:23-71 | the filter loop and the column loop return exactly `WaitTimeFrame` |
| Reviews.DimFiveStar | olist/order.py:84-88 | the flag is 0 or 1, and 1 exactly for score 5 |
| Reviews.DimOneStar | olist/order.py:90-94 | the flag is 0 or 1, and 1 exactly for score 1 |
| Reviews.GetReviewScore | olist/order.py:74-99 | one row per review row in order, with order_id and score unchanged and sound flags; equals `ReviewFrame` |
| Reviews.ReviewFrameSound | olist/order.py:96-99 | every row keeps its review's order_id and score, both flags are in {0, 1}, they are never both set, and the frame's order_ids are those of the reviews |
| Reviews.FiveStarExample | olist/order.py:84-99 | a lone five-star review gives flags (1, 0) |
| ItemFeatures.CountOfPositive | olist/order.py:111 | an order's item count is positive exactly when it has an item |
| ItemFeatures.SellersAtMostItems | olist/order.py:126 | an order never has more distinct sellers than items |
| ItemFeatures.SellersOfMember | olist/order.py:126 | a known seller of an item is among its order's sellers, so the order has at least one |
| ItemFeatures.InsertSorted | olist/order.py:112 | inserting into a sorted frame keeps it sorted |
| ItemFeatures.InsertMultiset | olist/order.py:112 | inserting adds exactly that row and loses none |
| ItemFeatures.SortByCountSpec | olist/order.py:112 | sort_values orders rows by count and only permutes them |
| ItemFeatures.CountFrameSpec | olist/order.py:111-114 | a count frame is sorted by count and has one row per order_id of the items, carrying that order's count |
| ItemFeatures.NumberProductsSpec | olist/order.py:102-114 | number_of_products: one row per order_id of the items, holding its number of item rows, sorted ascending |
| ItemFeatures.NumberSellersSpec | olist/order.py:117-128 | number_of_sellers: one row per order_id, the number of distinct known sellers, sorted ascending, at most number_of_products, at least 1 when an item has a seller |
| ItemFeatures.AmountOverTotal | olist/order.py:137 | summing the per-order sums over all order_ids gives the grand total of the item table |
| ItemFeatures.PriceAndFreightSpec | olist/order.py:131-137 | one row per order_id of the items, no duplicates, with the sums of price and freight_value of that order; the columns add up to the table's totals |
| ItemFeatures.TwoItemExample | olist/order.py:102-137 | an order with two items from two sellers gives 2 products, 2 sellers and the summed price and freight |
| Distance.FirstGeoSpec | olist/order.py:152 | a zip prefix has a first geolocation row exactly when it occurs, and that row has that prefix |
| Distance.DedupGeoSpec | olist/order.py:150-152 | deduplication keeps each zip prefix once, loses none, and keeps the first row of each prefix |
| Distance.GeoLeftJoinSpec | olist/order.py:158-166 | the left merge with the deduplicated geolocation gives exactly one row per seller (customer), with the first coordinate of its zip prefix or none |
| Distance.LocateAllMember | olist/order.py:158-166 | the geocoded sellers (customers) are exactly the input rows with their coordinates, one per input row |
| Distance.DropIncomplete | olist/order.py:172-173 | dropna keeps exactly the rows with every column present |
| Distance.CompletePairsMember | olist/order.py:168-173 | the complete rows of matching_geo are exactly the linked matching rows whose seller and customer exist and are both located, with those coordinates |
| Distance.MeanBetween | olist/order.py:185-190 | the mean of values all within [lo, hi] is within [lo, hi] |
| Distance.MeanBounds | olist/order.py:185-190 | a mean lies between the least and the greatest value |
| Distance.MeanByOrderSpec | olist/order.py:185-190 | the mean frame has one row per order_id of the distances and no other, each between that order's least and greatest distance |
| Distance.GetDistanceSellerCustomer | olist/order.py:140-192 | the per-row distance loop followed by the mean returns exactly `DistanceFrame` |
| Distance.DistanceRowCovered | olist/order.py:168-183 | a distance row exists only for an order with a review, an item sold by a known seller, a customer and both zip prefixes located |
| Distance.CoveredDistanceRow | olist/order.py:168-183 | every such order gets a distance row |
| Distance.DistanceFrameSpec | olist/order.py:140-192 | the distance frame has one row per order, exactly for those orders, each mean between the order's least and greatest pair distance |
| Training.DropNa | olist/order.py:213-214 | dropna keeps exactly the rows with a known wait_time, the only column that can be missing |
| Training.GetTrainingData | olist/order.py:194-214 | the feature methods, the merges and dropna return exactly `TrainingData` |
| Training.MergedSound | olist/order.py:203-207 | every merged row is assembled from one row of each feature frame, all of the same order_id |
| Training.MergedComplete | olist/order.py:203-207 | every such combination of rows is a merged row |
| Training.SplitDistance | olist/order.py:209-211 | after the optional distance merge, a row is a merged row with one distance row of its order, or the merged row itself when no distance is requested |
| Training.TrainingDataMember | olist/order.py:194-214 | a training row is exactly an assembly of same-order rows of every merged frame (the distance frame only on request) with a known wait_time |
| Training.TrainingRowSound | olist/order.py:194-214 | every training row comes from a kept, delivered order, has a non-negative delay, sound flags, the order's review score, its item count (≥ 1), at most that many sellers, its price and freight sums, and a distance exactly when requested |
| Training.TrainingWaitNonNegative | olist/order.py:48-49 | wait_time is non-negative when no order is delivered before its purchase |
| Training.TrainingIdCovered | olist/order.py:203-214 | a training order passed the filter, was delivered, has a review and an item, and is located when the distance is requested |
| Training.CoveredTrainingId | olist/order.py:203-214 | every such order appears in the training set |
| Training.TrainingDataIds | olist/order.py:194-214 | the training set's order_ids are exactly the delivered kept orders that have a review and an item, and are located when the distance is requested |

## Left out

- File system I/O: `os.listdir`, the path resolution, `pd.read_csv`, and the `os.remove` of `.DS_Store` (olist/data.py:16-29). Reading a file is the parameter `read` of `FileKeys.LoadData`, and the file names are its input. A `.DS_Store` name is keyed like any other.
- `haversine_distance` is not part of this model. It is the function parameter `dist` of `Distance.GetDistanceSellerCustomer`.
- `pd.to_datetime` parsing: timestamps arrive as whole seconds, with a missing delivery date as `None`.
- Floating point: days, sums and means are exact `real`/integer arithmetic, so rounding is not modelled.
- NaN handling beyond the missing delivery date. `absolute_delay` of a NaN delay returns 0 because `NaN < 0` is false, and `WaitTime.AbsoluteDelay` models that.
- Distance.DedupGeo: pandas' `groupby().first()` takes the first non-null value per column. Geolocation rows have no null coordinates here, so this is the first row per prefix.
- Grouping.GroupKeys: lists keys in first-appearance order, whereas pandas sorts group keys. The count frames are sorted by the count afterwards, stably; pandas' sort is not stable, so the order of equal counts may differ. `ItemFeatures.PriceAndFreight` and `Distance.MeanByOrder` keep first-appearance order.
- Joins.OuterJoin: rows come out as the left side's rows (matched or not) in order, then the unmatched right rows. pandas sorts an outer merge by key. The membership and key lemmas do not depend on row order.
- Joins.InnerJoin: only membership is stated (a row is in the merge exactly when some matching pair of rows builds it); neither how often a row occurs nor pandas' row order of a many-to-many merge is promised by a contract.
- The repeated `Olist()` reloads in `Order.__init__` and `get_distance_seller_customer` (olist/order.py:20, 148). The model passes one `Dataset` throughout.
- City, state and zip prefix columns of sellers and customers (kept by the masks at olist/order.py:159 and 164) are not carried into `Distance.Pair`. In the source `matching_geo.dropna()` (olist/order.py:173) also drops a row whose city, state or zip is null; in the model these columns cannot be null, so that part of the check never fires. order_item_id is used only through the row count.
- Failing inputs: a missing directory, a missing table or column, and a malformed date make the source raise (olist/data.py:20, olist/data.py:42-44, olist/order.py:31, olist/order.py:38-43). The model's typed records and already-parsed timestamps cannot represent such inputs, so those failures are not modelled.
