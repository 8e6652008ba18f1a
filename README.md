# Cafe recommendation system and badge-reader timer, modelled in Dafny

This project models the data-handling core of a cafe ordering system and one
piece of its card-reader firmware.

- **Recommendation engine** (`recommendation_engine.py`):
  - A customer with fewer than three orders gets the popular items.
  - Otherwise three scorers run:
    - frequency: quantity summed per menu item;
    - recency: the same sum over orders of the last 30 days, with dates read as text as the code intends (see "## Left out");
    - similarity: neighbours of ordered items, under an abstract similarity function.
  - Their suggestions are merged by a weighted sum (0.4 / 0.3 / 0.3) into one list of distinct items in descending score.
  - A separate category rule suggests pastries with coffee, and drinks with sandwiches and salads.
- **Software timer table** (`Student_card/Core/Src/Timer.c`):
  - twenty records {En, SV, PV, Output} of unsigned 32-bit fields;
  - `startTim` and `stopTim` change one record;
  - `scanTimer` advances every enabled record when the tick flag is set, and latches Output when PV passes SV;
  - the TIM2 interrupt callback sets the tick flag.
- **Database helpers** (`database_manager.py`):
  - joined rows grouped into orders in first-seen order;
  - the `get_menu_items` query and its parameters;
  - the `LIMIT` suffix;
  - the `add_order` total.
- **Web routes** (`app.py`):
  - comma-list cleanup and optional fields of `add_menu_item`;
  - the `quantity_<id>` fields of `create_order`;
  - the statistics of `customer_stats`;
  - the order list of `orders`.
- **Migration** (`migrate_to_postgresql.py`):
  - first-match id mappings for customers (name and email) and menu items (name);
  - the skip and remap rules of `migrate_orders`;
  - the early exits of `migrate_all`.

Inputs, dates and randomness:

- Database rows, form fields, the current time and the similarity function are parameters.
- Dates are integer timestamps in seconds.
- Money and similarity scores are `real`.
- Python's iteration over a `set` is a nondeterministic choice (`:|`), so results that depend on it are specified by properties rather than exactly.

Files:

| file | module |
|---|---|
| `seqs.dfy` | Seqs: stable descending insertion sort, top-N, first-seen order, de-duplication with a cap |
| `text.dfy` | Text: ASCII `strip`, `split`/`join`, decimal `int()` and `str()` |
| `dicts.dfy` | Dicts: an insertion-ordered dictionary as a sequence of slots, and its reference fold |
| `counter.dfy` | Counter: `Counter`-style quantity sums per key |
| `cafe_data.dfy` | CafeData: menu items, orders, order lines, customers |
| `order_store.dfy` | OrderStore: `database_manager.py` |
| `recommend.dfy` | Recommend: the scorers and complementary items |
| `combine.dfy` | Combine: the weighted combiner and `get_customer_recommendations` |
| `web_forms.dfy` | WebForms: `app.py` |
| `migration.dfy` | Migration: `migrate_to_postgresql.py` |
| `soft_timer.dfy` | SoftTimer: `Timer.c` |

## Model

| member | source | states |
|---|---|---|
| Recommend.GetComplementaryItems | recommendation_engine.py:260-297 | at most `limit` entries with distinct ids, none of them an id asked about, each on the menu and paired with an asked-about item by the category rule |
| Recommend.GetComplementaryItemsAsWritten | recommendation_engine.py:284-295 | the loop as written equals the capped de-duplication with cap max(1, limit) |
| Recommend.ComplementaryLimitZero | recommendation_engine.py:286-295 | with limit 0, a coffee and a pastry on the menu, the loop as written returns one entry |
| Recommend.ComplementsBound | recommendation_engine.py:284-295 | the de-duplicated complements: at most `cap`, distinct ids, none asked about, each on the menu, with the fixed reason and type |
| Recommend.ComplementsPaired | recommendation_engine.py:266-281 | every complement goes with some menu item whose id was asked about |
| Recommend.ComplementsComplete | recommendation_engine.py:284-295 | every paired item not asked about is kept unless the cap was reached |
| Recommend.GoesWith | recommendation_engine.py:270-281 | at most two menu items: pastries for a coffee, drinks for a sandwich or salad, nothing otherwise |
| Recommend.PairingsSpec | recommendation_engine.py:268-281 | every collected pairing is on the menu and goes with one of the given items |
| Recommend.CollectPairings | recommendation_engine.py:268-281 | the extend loop builds exactly the concatenated pairings of the given items |
| Recommend.AsComplements | recommendation_engine.py:289-293 | one complement per kept item, in order, with reason "Great combination with your selection" and type complementary |
| Recommend.Dedup | recommendation_engine.py:284-295 | the seen-set loop, with the limit checked before the append, equals the reference capped de-duplication |
| Recommend.DedupAsWritten | recommendation_engine.py:129-136 | the seen-set loop with its break after the append equals the reference de-duplication capped at max(1, limit) |
| Seqs.FirstUniqueSpec | recommendation_engine.py:129-136 | the de-duplicated list has distinct keys, no excluded key, at most `cap` entries, all from the input, and loses no key unless full |
| Seqs.FirstUniqueSorted | recommendation_engine.py:131 | de-duplicating a descending list keeps it descending |
| Seqs.FirstUniqueKeepsBest | recommendation_engine.py:131-134 | each kept entry scores at least as high as every other entry with its key |
| Seqs.FirstUniqueLeftOut | recommendation_engine.py:131-136 | de-duplicating a descending list: an entry whose key was not kept scores no more than every kept entry |
| Recommend.SimilarityRecommendations | recommendation_engine.py:73-138 | empty for a customer who ordered nothing; otherwise, for some order of visiting the ordered items, exactly the first max(1, limit) distinct items of their candidates sorted by score; hence at most `limit`, distinct ids, descending, each a candidate not ordered before; every candidate's item is there unless `limit` suggestions are, with a score at least the candidate's; a candidate left out scores no higher than any suggestion |
| Recommend.SimilarCandidates | recommendation_engine.py:109-126 | for some order visiting each ordered item once, exactly the concatenated neighbour suggestions of the visited items; a suggestion is in the list iff it is a candidate of some ordered item; nothing when `limit` is 0 |
| Recommend.SimilarTo | recommendation_engine.py:110-126 | exactly the suggestions for the neighbours of one ordered item that were not ordered, in neighbour order, each with its similarity; at most `limit` |
| Recommend.NeighboursSpec | recommendation_engine.py:115 | `argsort()[-limit-1:-1][::-1]`: min(n-1, limit) positions in descending similarity, the best one dropped |
| Recommend.NeighbourRecsSpec | recommendation_engine.py:115-126 | the suggestions for one item's neighbours: at most `limit`, descending similarity, each a neighbour not ordered with its similarity, and every such neighbour there |
| Recommend.SuggestFrom | recommendation_engine.py:117-126 | each suggestion is a neighbour not ordered before, scored with its similarity; no more suggestions than neighbours |
| Recommend.SuggestComplete | recommendation_engine.py:117-126 | every neighbour not ordered before gets its suggestion |
| Recommend.SuggestSorted | recommendation_engine.py:115-126 | neighbours in descending similarity give suggestions in descending score |
| Recommend.PoolHas | recommendation_engine.py:109-126 | a suggestion is in the list built for a visiting order iff it is among the suggestions for some visited item |
| Recommend.PoolCandidates | recommendation_engine.py:109-126 | visiting every ordered item, in any order, yields exactly the candidates |
| Recommend.CandidatePick | recommendation_engine.py:109-126 | a candidate is an item not ordered, scored by its similarity to an ordered item, and candidates exist only when `limit` is at least 1 |
| Recommend.DedupRanked | recommendation_engine.py:128-136 | de-duplicating the sorted candidates keeps every candidate's item unless the cap is reached, keeps for each item a score at least that of every candidate for it, and leaves out only candidates scoring no more than every kept entry |
| Recommend.DedupLeftOut | recommendation_engine.py:128-136 | a candidate whose item was left out scores no more than every kept entry |
| Recommend.PoolRanked | recommendation_engine.py:109-138 | for any visiting order, the first max(1, limit) distinct items of the sorted candidates meet the whole similarity contract above |
| Recommend.PoolShaped | recommendation_engine.py:128-136 | those items are at most `limit`, descending, distinct, and each a candidate and a similarity suggestion |
| Recommend.PoolCovers | recommendation_engine.py:128-136 | those items cover every candidate unless full, with the best score, and every candidate left out scores no more than they do |
| Recommend.Positions | recommendation_engine.py:89-100 | the positions 0..n-1 of the menu |
| Recommend.OrderedItems | recommendation_engine.py:78-82 | the set of ordered ids is exactly the menu ids of all order lines |
| Recommend.AddOrderedItems | recommendation_engine.py:81-82 | adding an order's lines adds exactly their ids |
| Recommend.OwnedIdsSpec | recommendation_engine.py:79-82 | an id is owned iff some order line has it |
| Recommend.FrequencyRecommendations | recommendation_engine.py:44-71 | exactly the menu lookups of `most_common(limit)` of the quantities summed per id over every line; hence at most `limit` entries, distinct ids, descending counts, each an ordered item on the menu with its exact summed quantity and the "You've ordered this N times" reason; an ordered item on the menu left out means `limit` other ordered items were ordered at least as often, and it scores no more than any entry |
| Recommend.RecencyRecommendations | recommendation_engine.py:140-170 | the frequency contract over the orders newer than now minus 30 days, with the "Recently ordered N times" reason |
| Recommend.RecentOrders | recommendation_engine.py:146-149 | keeps exactly the orders dated strictly after now minus 30 days; an order on the boundary is dropped |
| Recommend.RecentSnoc | recommendation_engine.py:146-149 | appending an order keeps it exactly when it is inside the window |
| Recommend.CountScorer | recommendation_engine.py:49-69 | counting then ranking is exactly the lookups of `most_common(limit)` of the reference tally, with the ranked-count contract above |
| Recommend.TallyRanked | recommendation_engine.py:49-69 | the lookups of `most_common(limit)` of the reference tally meet the whole ranked-count contract |
| Recommend.TallyShaped | recommendation_engine.py:55-69 | those lookups are bounded by `limit` and the distinct ids, descending, distinct, each an ordered menu item with its exact summed quantity and reason |
| Recommend.TallyCovers | recommendation_engine.py:55-63 | an ordered item on the menu left out is outranked by `limit` others and scores no more than any lookup |
| Recommend.TallyOutranked | recommendation_engine.py:55 | the keys of the top `limit` counter entries witness that a left-out id was outranked |
| Recommend.TopOutranks | recommendation_engine.py:55 | top entries that each count at least as much as a left-out entry, and are not it, are distinct ordered ids ordered at least as often |
| Recommend.RankCounts | recommendation_engine.py:55-69 | the lookup loop over `most_common(limit)` equals the reference ranked lookups |
| Recommend.RankedSpec | recommendation_engine.py:55-69 | the ranked lookups: bounded by `limit` and by the counts, descending, distinct, each from a count, none left out with a larger count |
| Recommend.RankedFrom | recommendation_engine.py:58-69 | each suggestion comes from one counted item found on the menu |
| Recommend.RankedLeftOut | recommendation_engine.py:55-63 | an item on the menu missing from the output scores no more than any entry kept |
| Recommend.RankedLeftOutOne | recommendation_engine.py:55-63 | a counter entry on the menu missing from the output means the top is full of other entries counting at least as much, and every suggestion scores at least its count |
| Recommend.LookupsFrom | recommendation_engine.py:58-69 | each suggestion is a counted id found on the menu, with its count as score and its reason |
| Recommend.LookupsComplete | recommendation_engine.py:61-63 | every counted id found on the menu yields a suggestion; others are silently dropped |
| Recommend.LookupsSorted | recommendation_engine.py:55-69 | lookups keep the descending order of the counts |
| Recommend.LookupsDistinct | recommendation_engine.py:55-69 | lookups of distinct ids have distinct ids |
| Recommend.PopularRecommendations | recommendation_engine.py:172-185 | one suggestion per popular row, in row order, scored its `order_count` or 0, with the popular reason and type |
| Counter.CountLines | recommendation_engine.py:49-52 | the counter equals the reference counter: each id once, in first-seen order, with the exact sum of its quantities |
| Counter.Tally | recommendation_engine.py:49-52 | the reference counter: each id once in first-seen order, valued with the sum of its quantities |
| Counter.SameTally | recommendation_engine.py:49-52 | a counter with those keys and values is the reference counter |
| Counter.CountItems | recommendation_engine.py:51-52 | adding one order's lines keeps the counter equal to the reference fold of all lines seen |
| Counter.CountsHoldQuantities | recommendation_engine.py:49-52 | every counter value is the sum of the quantities of the lines with its key |
| Counter.QuantityAppend | recommendation_engine.py:49-52 | the quantity sum over two line lists is the sum of the two |
| Seqs.SortDescSpec | recommendation_engine.py:55 | the stable descending sort is sorted and a permutation of its input |
| Seqs.TopSpec | recommendation_engine.py:243-245 | the top `n` of the descending sort: min(n, length) entries, sorted, a sub-multiset, none below an entry left out |
| Seqs.TopLeftOut | recommendation_engine.py:55 | an element whose key is not in the top `n` means the top is full and scores at least as high |
| Seqs.FirstSeenSpec | database_manager.py:243-267 | first-seen order has no duplicates and the same members as the input |
| Combine.CombineRecommendations | recommendation_engine.py:187-258 | min(limit, distinct ids) entries, descending total, distinct ids; each entry's score is the weighted sum over the three lists, its types and reasons those of its suggestions; an id left out means the list is full of entries scoring at least as high |
| Combine.StreamTotal | recommendation_engine.py:197-239 | the total of an id over the three weighted loops is 0.4, 0.3 and 0.3 times its summed scores in the frequency, similarity and recency lists |
| Combine.WeightedTotalWith | recommendation_engine.py:207 | the total of one weighted list is the weight times the summed score |
| Combine.WeightedTotalAppend | recommendation_engine.py:197-239 | totals over consecutive loops add up |
| Combine.AddAll | recommendation_engine.py:197-209 | one of the three loops keeps the table equal to the reference fold of every weighted suggestion so far |
| Combine.TableEntries | recommendation_engine.py:194-239 | the filled table has one entry per distinct id, each holding the first item, exact total, reasons and types of that id |
| Combine.AccEntry | recommendation_engine.py:199-209 | the entry of an id is the item of its first suggestion, its weighted total, its reasons and types |
| Combine.KindsForSpec | recommendation_engine.py:209 | a type is in an entry iff some suggestion for that id has it |
| Combine.ReasonsForSpec | recommendation_engine.py:208 | a reason is in an entry iff some suggestion for that id has it |
| Combine.FirstItemSpec | recommendation_engine.py:200-201 | the stored item is the item of some suggestion |
| Combine.RankedEntries | recommendation_engine.py:243-245 | the best `limit` entries: min(limit, distinct ids), descending total, distinct ids, each an exact entry |
| Combine.PickReasons | recommendation_engine.py:248-249 | `list(set(reasons))[:2]`: distinct reasons from the list, two when there are two different ones |
| Combine.Finish | recommendation_engine.py:242-256 | each final entry keeps its item, total and types, and joins up to two distinct reasons with "; " |
| Combine.FinishedFrom | recommendation_engine.py:242-256 | the final list is descending by score with distinct ids, each entry the combination of its suggestions |
| Combine.LeftOut | recommendation_engine.py:243-245 | an id cut by `[:limit]` means the list is full and every kept score is at least its combined score |
| Combine.GetCustomerRecommendations | recommendation_engine.py:16-42 | the popular list exactly when there are fewer than 3 orders, one entry per popular row with its item, its `order_count` or 0 and the popular reason; otherwise the combiner's result over `most_common(limit * 2)` of all and of the recent orders and a list the similarity scorer may return with `limit * 2`: at most `limit` distinct items in descending score, each backed by a scorer consistent with the history |
| Combine.StreamSourced | recommendation_engine.py:26-40 | every suggestion reaching the combiner comes from a scorer's stated source |
| Combine.KindSourced | recommendation_engine.py:26-40 | a frequency type means the item was ordered, similarity that it was not, recency that it was ordered recently |
| Combine.PersonalisedFrom | recommendation_engine.py:26-40 | a combined entry is on the menu with a non-empty, consistent set of types |
| SoftTimer.Inc | Student_card/Core/Src/Timer.c:38 | `++PV` on a uint32: one more, or 0 after 0xFFFFFFFF |
| SoftTimer.Started | Student_card/Core/Src/Timer.c:7-17 | an enabled record is unchanged; a disabled one gets En 1, PV 0, Output 0 and SV max(SV, 1) - 1 |
| SoftTimer.Period | Student_card/Core/Src/Timer.c:12 | the period max(SV, 1) is between 1 and 2^32 - 1 |
| SoftTimer.StartedOk | Student_card/Core/Src/Timer.c:7-17 | starting keeps PV at most SV and SV below 2^32 - 1 |
| SoftTimer.StepSpec | Student_card/Core/Src/Timer.c:36-43 | one scan step keeps PV at most SV, increments PV without wrapping, changes nothing on a disabled record, never clears Output and never changes En or SV |
| SoftTimer.WrapWithoutBound | Student_card/Core/Src/Timer.c:38 | without the PV at most SV invariant, a record with SV = PV = 0xFFFFFFFF would wrap PV to 0 without firing |
| SoftTimer.Scanned | Student_card/Core/Src/Timer.c:34-44 | the scan steps each of the records and no other |
| SoftTimer.StepsFromStart | Student_card/Core/Src/Timer.c:7-44 | n scan steps after a start leave PV = n mod period and Output = 1 iff n is at least the period |
| SoftTimer.FiresAfterPeriod | Student_card/Core/Src/Timer.c:7-44 | `Output` is 1 after n scans iff n is at least max(SV, 1) |
| SoftTimer.TimerTable.constructor | Student_card/Core/Inc/Timer.h:6-14 | a table of `MaxTIMER` = 20 zeroed records and a clear tick flag |
| SoftTimer.TimerTable.StartTim | Student_card/Core/Src/Timer.c:7-17 | only record `i` changes, to its started form |
| SoftTimer.TimerTable.StopTim | Student_card/Core/Src/Timer.c:19-25 | only record `i` changes, to all zero |
| SoftTimer.TimerTable.ScanTimer | Student_card/Core/Src/Timer.c:29-46 | with the tick not 1 nothing changes; otherwise the tick is cleared and all 20 records are stepped, keeping the table invariant |
| SoftTimer.TimerTable.PeriodElapsed | Student_card/Core/Src/Timer.c:54-60 | the tick becomes 1 for TIM2 and is unchanged for any other instance; the records and the table invariant are untouched |
| SoftTimer.TimerTable.Fired | Student_card/Core/Src/main.c:161 | true iff record `i` is enabled with its output set |
| SoftTimer.TimerTable.ClearOutput | Student_card/Core/Src/main.c:162 | only the output of record `i` changes, to 0 |
| OrderStore.GroupRows | database_manager.py:242-267 | one order per distinct order id in first-seen order, each holding the first row's header and every row's item in row order; the item count equals the row count |
| OrderStore.AddRow | database_manager.py:244-265 | one row keeps the orders equal to the reference grouping of the rows seen |
| OrderStore.GroupedNewRow | database_manager.py:246-254 | a row with a new id appends an order with that row's header and its one item |
| OrderStore.GroupedKnownRow | database_manager.py:256-265 | a row with a known id appends its item to that order only |
| OrderStore.GroupOfSnoc | database_manager.py:246-265 | the reference order of an id after one more row |
| OrderStore.FirstRowForSpec | database_manager.py:246-254 | an id has a first row iff some row carries it |
| OrderStore.ItemOf | database_manager.py:256-264 | the item of a row copies its fields, with a null customization becoming an empty map |
| OrderStore.MenuItemsQuery | database_manager.py:173-184 | the exact query for each combination of category and availability filter, the category parameter iff a category is given, and one parameter per `%s` |
| OrderStore.PlaceholderCounts | database_manager.py:173-184 | the `%s` count of each query piece |
| OrderStore.AppendLimit | database_manager.py:234-237 | ` LIMIT %s` and its parameter are added iff `limit` is truthy, keeping placeholders and parameters in step |
| OrderStore.OrderTotalAppend | database_manager.py:197 | the total of two item lists is the sum of their totals |
| OrderStore.OrderTotalBounds | database_manager.py:197 | with non-negative prices and quantities the total is non-negative and at least each line |
| WebForms.CleanedSpec | app.py:174-175 | the cleaned list is the non-empty stripped pieces: each trimmed, each from a piece, no non-empty piece lost |
| WebForms.CleanListSpec | app.py:169-175 | every entry of a cleaned comma list is trimmed, non-empty and comma-free |
| WebForms.CleanListJoin | app.py:169-175 | joining trimmed comma-free entries with commas and cleaning gives them back |
| WebForms.CleanedClean | app.py:174-175 | cleaning already trimmed pieces changes nothing |
| WebForms.TextOrNone | app.py:180-185 | None iff the text is empty, else the text |
| WebForms.ListOrNone | app.py:182-183 | None iff the list is empty, else the list |
| WebForms.MenuItemForm | app.py:163-186 | fails on a missing name, then category, then price, then on an unparsable price, then on unparsable calories; otherwise copies name, category and price, gives subcategory and description as the text or None when empty, ingredients and allergens as the cleaned comma list or None when empty, and the parsed calories |
| WebForms.MenuItemFormRoundTrip | app.py:163-186 | a form whose fields carry a menu item, with its lists joined by commas and its calories in decimal, reads back as that item |
| WebForms.ListBack | app.py:169-175 | clean entries joined by commas, or an empty field, read back as the same list or None |
| WebForms.CaloriesBack | app.py:171 | calories written in decimal, or an empty field, read back as themselves |
| WebForms.Lookup | app.py:164-171 | the value of the first field with the key, or none when no field has it |
| WebForms.FieldItem | app.py:224-237 | nothing for a name not starting `quantity_`; a non-integer value fails; a positive value with a non-integer `key.split('_')[1]` fails; a positive value whose id is on the menu gives exactly that item at the menu price with no customizations; no other case gives an item or fails |
| WebForms.IdText | app.py:226 | `key.split('_')[1]` of a `quantity_` name: the piece after the first `_`, itself without `_` |
| WebForms.NoUnderscore | app.py:226 | the decimal rendering of an integer has no `_` |
| WebForms.QuantityFieldRoundTrip | app.py:224-237 | the field `quantity_<id>` = `<quantity>` with a positive quantity gives back that item at the menu price when the id is on the menu, and nothing otherwise |
| WebForms.OrderLinesOk | app.py:224-237 | a form that parses has no field that fails |
| WebForms.OrderLinesFrom | app.py:224-237 | every parsed item comes from one form field |
| WebForms.OrderLinesComplete | app.py:224-237 | every field that yields an item contributes it |
| WebForms.ParseOrderItems | app.py:224-237 | the loop returns the reference item list, or the first failure |
| WebForms.CreateOrder | app.py:215-245 | a missing customer id fails as missing, a non-integer one as a bad number; then the first failing item field fails the order; an order is created iff the id parses and the fields give a non-empty item list, with that id, those items, the notes and the `add_order` total; "nothing selected" iff the id parses and the fields give no item |
| WebForms.CustomerStats | app.py:311-338 | not found without a customer; otherwise the order count, the total spent, the average (0 without orders) and the top five names by exact summed quantity, exactly the first five of the stable descending sort of the name counter |
| WebForms.TopOfCounts | app.py:330 | the top five of the name counter: min(5, names) entries, descending, distinct, exact sums, none left out with a larger sum |
| WebForms.Average | app.py:321 | 0 without orders, otherwise the value whose product with the count is the total |
| WebForms.Named | app.py:203-205 | each order tagged with its customer's name |
| WebForms.GatheredSpec | app.py:199-205 | every gathered order is in some customer's history, with that customer's name |
| WebForms.GatherOrders | app.py:199-205 | the nested loop builds the reference gathered list |
| WebForms.OrdersPage | app.py:194-210 | exactly the first 50 of the stable newest-first sort of the orders of the first 20 customers; hence a sub-multiset, descending, and an order not shown means the page is full of orders at least as new |
| Migration.MatchIds | migrate_to_postgresql.py:256-261 | the nested loop with `break` builds the reference first-match map |
| Migration.MatchMapSpec | migrate_to_postgresql.py:256-261 | a source id is mapped iff some source row with that id has a matching target, and then to the id of the first match of such a row |
| Migration.MatchMapDistinct | migrate_to_postgresql.py:256-261 | with distinct source ids, each matched source id goes to the id of the first matching target |
| Migration.CustomerMapping | migrate_to_postgresql.py:243-263 | the customer map matches on name and email |
| Migration.MenuItemMapping | migrate_to_postgresql.py:265-284 | the menu map matches on name |
| Migration.FirstMatch | migrate_to_postgresql.py:257-261 | the position of the first target with the key, or none when no target has it |
| Migration.Mapped | migrate_to_postgresql.py:189-190 | `if not mapping.get(id)`: a mapping holds only when the id is mapped to a non-zero id |
| Migration.ParsedCustomizations | migrate_to_postgresql.py:195-200 | empty or missing text, or text that does not parse, gives an empty map; otherwise the parsed map |
| Migration.RemapItemsSpec | migrate_to_postgresql.py:185-207 | the remapped items come from source items with a mapped menu id; every such item is kept; none survive iff no menu id maps |
| Migration.RemapOrderItems | migrate_to_postgresql.py:183-207 | the loop builds the reference remapped list |
| Migration.MigrateOne | migrate_to_postgresql.py:179-223 | an order is skipped iff it has no items, no item survives, or its customer is unmapped; otherwise it carries the mapped customer, remapped items, notes and date |
| Migration.MigratedSpec | migrate_to_postgresql.py:171-238 | every written order comes from a source order and was inserted; every source order that migrates and inserts is written; at most one per source order; and they are written in source order, from increasing source positions |
| Migration.MigratedInOrder | migrate_to_postgresql.py:171-225 | the written orders come from increasing source positions |
| Migration.CountedOrders | migrate_to_postgresql.py:225-234 | how many inserted orders reach `migrated_count += 1`: at most all of them, all when every date is absent or set, none when every date update fails |
| Migration.MigrateOrders | migrate_to_postgresql.py:155-241 | the loop writes exactly the reference list; `migrated_count` counts the written orders with no date or whose date update succeeded, and is at most the written orders, themselves at most the source orders |
| Migration.MigrateAll | migrate_to_postgresql.py:286-327 | false with nothing written when the source is missing or the connection fails; otherwise true, with the orders migrated under both mappings |
| Text.SplitJoin | app.py:169 | splitting a join of separator-free pieces gives them back |
| Text.StripSpec | app.py:174-175 | a stripped text is empty or trimmed, and is a slice of the original |
| Text.ParseIntToString | app.py:225-227 | `int(str(n))` is `n` |
| Dicts.Put | recommendation_engine.py:199-209 | one dictionary update keeps the slot list equal to the reference fold |
| Dicts.FilledDistinct | database_manager.py:246 | a filled dictionary has distinct keys, exactly the keys seen |

## Left out

- SQL execution, connections, commits and schema are left out. Database rows, the customer row of `customer_stats` and the success of each insert are parameters.
- Floating point: prices, scores and weights are `real`, so round-off is not modelled.
- TF-IDF vectorisation and cosine similarity are an uninterpreted `sim` over menu positions.
- `fit_transform` raises `ValueError` on an empty menu or one whose texts are all stop words. The API route turns that into an error response (app.py:305-306). The model does not raise: with an empty menu it has no neighbours, and for stop-word-only texts `sim` is any function.
- Timestamp parsing (`datetime.fromisoformat`) is left out, and dates are integer seconds. An unparsable date, which would raise, is not modelled.
- Recommend.RecencyRecommendations: the model follows the intent of recommendation_engine.py:148, which treats `order_date` as ISO text. As written, the code raises `TypeError` on the repository's own data:
  - the history query reads the `TIMESTAMP` column (database_manager.py:68) through a `RealDictCursor` and passes the value on unchanged (database_manager.py:250), so `order_date` is a `datetime`;
  - `datetime.replace('Z', '+00:00')` does not accept two strings;
  - so `get_customer_recommendations` raises for every customer with 3 or more orders. app.py:303-306 turns that into an error response, and app.py:288 does not catch it.
- ISR and main-loop concurrency on the tick flag is left out; the callback is an ordinary method, as are `Timer_IT_Init` and the HAL calls.
- `get_popular_items` is an SQL aggregate, so its rows are an input.
- `update_customer_visit` is a database call. `CreateOrder` reports the order it would create.
- `migrate_customers` and `migrate_menu_items` are left out; their effect is the target rows given to the mappings.
- The order-date `UPDATE` is a parameter `setsDate`: whether it succeeds for an inserted order. `if order['order_date']` is modelled as the date being present.
- Migration.MigrateOrders: `written` lists every inserted order with its source date, including one whose date `UPDATE` failed and which then keeps the database's default date. Only `count` reflects the failure.
- `float()` and `json.loads` are functions passed in as parameters.
- Flask routing, templates, flash messages, face recognition, `main.py`, the migration's `main` and the STM32 peripheral code are left out.
- `strip()` removes the six ASCII whitespace characters only. Python's `str.strip()` also removes `\x1c`-`\x1f` and non-ASCII whitespace.
- `int()` reads an optional sign and ASCII decimal digits, after stripping. Python's `int()` also accepts `_` between digits and non-ASCII decimal digits.
- Limits are natural numbers. Python's negative slice bounds are not modelled.
- `LIMIT` in the history query limits joined rows, not orders, and the model follows that.
- Repeated form fields: `request.form.get` is the first field with the key (`WebForms.Lookup`). `request.form.items()` yields each key once, with its first value, but `WebForms.OrderLines` reads every (key, value) pair of the form, so a repeated `quantity_<id>` field adds one item per copy where the route adds one.
- Recommend.SimilarityRecommendations: the ordered items are visited in an unspecified order, as a Python set is. So the result is exact only up to that order: the first max(1, limit) distinct items of the sorted candidates for some visiting order.
- Combine.PickReasons: which two reasons `list(set(...))` picks is unspecified, so only their distinctness, count and origin are stated.
- Combine.GetCustomerRecommendations: the similarity list depends on the order a set is visited in. So the personalised result is the combiner's result over the exact frequency and recency lists and some list the similarity scorer may return, not one fixed list.
- NumPy's `argsort` is not stable. Ties in similarity are broken by the stable sort of the model.
- Any exception in `migrate_orders` other than a failed insert or date `UPDATE` ends the run and is not modelled.

## Findings

| source | as written | input that shows it | evidently intended | confidence | as-written member | corrected member |
|---|---|---|---|---|---|---|
| recommendation_engine.py:286-295 | the entry is appended before `len(unique_complementary) >= limit` is checked, so one entry is returned when `limit` is 0 and at least one complement exists | `get_complementary_items([1], limit=0)` with a coffee (id 1) and a pastry on the menu returns the pastry | at most `limit` entries | not executed | Recommend.ComplementaryLimitZero | Recommend.GetComplementaryItems |

The same append-then-test loop in `_get_similarity_based_recommendations`
(recommendation_engine.py:129-136) is harmless. With `limit` 0, the slice
`argsort()[-1:-1]` is empty, so there are no candidates
(`Recommend.SimilarCandidates`).
