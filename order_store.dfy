/** The data handling inside `database_manager.py` that is not SQL execution:
    grouping the joined order rows into orders, assembling the `menu_items`
    query and its parameters, appending `LIMIT`, and the order total. The
    rows the database returns are inputs. */
module OrderStore {
  import opened Seqs
  import opened Text
  import opened CafeData

  /** One row of `orders JOIN order_items JOIN menu_items`. */
  datatype Row = Row(
    orderId: int,
    customerId: int,
    orderDate: int,
    totalAmount: real,
    notes: Option<string>,
    menuItemId: int,
    quantity: int,
    unitPrice: real,
    customizations: Option<Customizations>,
    itemName: string,
    category: string,
    subcategory: Option<string>)

  function RowOrderId(r: Row): int { r.orderId }

  /** The order-level fields of a row, with no items yet. */
  function HeaderOf(r: Row): Order {
    Order(r.orderId, r.customerId, r.orderDate, r.totalAmount, r.notes, [])
  }

  /** The item a row contributes; `row['customizations'] or {}`. */
  function ItemOf(r: Row): (it: OrderItem)
    ensures r.customizations.None? ==> it.customizations == map[]
    ensures r.customizations.Some? ==> it.customizations == r.customizations.value
    ensures it.menuItemId == r.menuItemId && it.quantity == r.quantity && it.unitPrice == r.unitPrice
  {
    OrderItem(r.menuItemId, r.quantity, r.unitPrice,
              match r.customizations case None => map[] case Some(c) => c,
              r.itemName, r.category, r.subcategory)
  }

  /** The first row that carries order `id`. */
  function FirstRowFor(rows: seq<Row>, id: int): Option<Row>
  {
    if rows == [] then None
    else
      var p := FirstRowFor(rows[..|rows| - 1], id);
      if p.Some? then p
      else if rows[|rows| - 1].orderId == id then Some(rows[|rows| - 1])
      else None
  }

  /** The items of order `id`, one per row carrying it, in row order. */
  function ItemsFor(rows: seq<Row>, id: int): seq<OrderItem>
  {
    if rows == [] then []
    else
      ItemsFor(rows[..|rows| - 1], id) +
      (if rows[|rows| - 1].orderId == id then [ItemOf(rows[|rows| - 1])] else [])
  }

  /** The order `id` as grouping should produce it: header fields from its first
      row, items from all its rows. */
  function GroupOf(rows: seq<Row>, id: int): Order
    requires FirstRowFor(rows, id).Some?
  {
    HeaderOf(FirstRowFor(rows, id).value).(items := ItemsFor(rows, id))
  }

  function TotalItems(orders: seq<Order>): nat {
    if orders == [] then 0 else TotalItems(orders[..|orders| - 1]) + |orders[|orders| - 1].items|
  }

  lemma {:induction false} FirstRowForSpec(rows: seq<Row>, id: int)
    ensures FirstRowFor(rows, id).Some? <==> id in Keys(rows, RowOrderId)
    ensures FirstRowFor(rows, id).Some? ==> FirstRowFor(rows, id).value.orderId == id
  {
    if rows != [] {
      FirstRowForSpec(rows[..|rows| - 1], id);
    }
  }

  lemma RowsSnoc(rows: seq<Row>, i: nat)
    requires i < |rows|
    ensures rows[..i + 1][..i] == rows[..i]
    ensures rows[..i + 1] == rows[..i] + [rows[i]]
    ensures Keys(rows[..i + 1], RowOrderId) == Keys(rows[..i], RowOrderId) + [rows[i].orderId]
  {
    assert rows[..i + 1][..i] == rows[..i];
  }

  /** Adding one row changes only the group of its own order. */
  lemma GroupOfSnoc(rows: seq<Row>, r: Row, id: int)
    requires FirstRowFor(rows, id).Some? || id == r.orderId
    ensures FirstRowFor(rows + [r], id).Some?
    ensures FirstRowFor(rows, id).Some? && id != r.orderId ==>
              GroupOf(rows + [r], id) == GroupOf(rows, id)
    ensures FirstRowFor(rows, id).Some? && id == r.orderId ==>
              GroupOf(rows + [r], id) == GroupOf(rows, id).(items := GroupOf(rows, id).items + [ItemOf(r)])
    ensures FirstRowFor(rows, id).None? ==>
              GroupOf(rows + [r], id) == HeaderOf(r).(items := [ItemOf(r)])
  {
    assert (rows + [r])[..|rows|] == rows;
    if FirstRowFor(rows, id).None? {
      FirstRowForSpec(rows, id);
      assert ItemsFor(rows, id) == [] by {
        ItemsForAbsent(rows, id);
      }
    }
  }

  lemma {:induction false} ItemsForAbsent(rows: seq<Row>, id: int)
    requires FirstRowFor(rows, id).None?
    ensures ItemsFor(rows, id) == []
  {
    if rows != [] {
      ItemsForAbsent(rows[..|rows| - 1], id);
    }
  }

  lemma {:induction false} TotalItemsUpdate(orders: seq<Order>, k: nat, o: Order)
    requires k < |orders| && |o.items| == |orders[k].items| + 1
    ensures TotalItems(orders[k := o]) == TotalItems(orders) + 1
  {
    var n := |orders|;
    var u := orders[k := o];
    assert u[..n - 1] == if k < n - 1 then orders[..n - 1][k := o] else orders[..n - 1];
    if k < n - 1 {
      TotalItemsUpdate(orders[..n - 1], k, o);
    }
  }

  lemma TotalItemsSnoc(orders: seq<Order>, o: Order)
    ensures TotalItems(orders + [o]) == TotalItems(orders) + |o.items|
  {
    assert (orders + [o])[..|orders|] == orders;
  }

  /** `orders` is the grouping of `rows`: one order per distinct order id,
      in first-occurrence order, each its first row's header with one item per
      row of that order, and as many items as rows. */
  ghost predicate Grouped(rows: seq<Row>, orders: seq<Order>) {
    && Keys(orders, OrderId) == FirstSeen(Keys(rows, RowOrderId))
    && (forall k :: 0 <= k < |orders| ==>
          FirstRowFor(rows, orders[k].id).Some? && orders[k] == GroupOf(rows, orders[k].id))
    && TotalItems(orders) == |rows|
  }

  /** A row of an order already in the dict appends one item to it. */
  lemma GroupedKnownRow(rows: seq<Row>, r: Row, orders: seq<Order>, k: nat)
    requires Grouped(rows, orders)
    requires k < |orders| && orders[k].id == r.orderId
    ensures Grouped(rows + [r], orders[k := orders[k].(items := orders[k].items + [ItemOf(r)])])
  {
    var ids := Keys(rows, RowOrderId);
    FirstSeenSpec(ids);
    FirstSeenSnoc(ids, r.orderId);
    assert Keys(orders, OrderId)[k] == r.orderId;
    KeysSnoc(rows, r, RowOrderId);
    var updated := orders[k].(items := orders[k].items + [ItemOf(r)]);
    TotalItemsUpdate(orders, k, updated);
    KeysUpdate(orders, k, updated, OrderId);
    KnownRowGroups(rows, r, orders, k);
  }

  /** The orders after a known row are the groups of the longer row list. */
  lemma KnownRowGroups(rows: seq<Row>, r: Row, orders: seq<Order>, k: nat)
    requires forall k :: 0 <= k < |orders| ==>
               FirstRowFor(rows, orders[k].id).Some? && orders[k] == GroupOf(rows, orders[k].id)
    requires Distinct(Keys(orders, OrderId))
    requires k < |orders| && orders[k].id == r.orderId
    ensures var after := orders[k := orders[k].(items := orders[k].items + [ItemOf(r)])];
            forall j :: 0 <= j < |after| ==>
              FirstRowFor(rows + [r], after[j].id).Some? && after[j] == GroupOf(rows + [r], after[j].id)
  {
    var after := orders[k := orders[k].(items := orders[k].items + [ItemOf(r)])];
    forall j | 0 <= j < |after|
      ensures FirstRowFor(rows + [r], after[j].id).Some? && after[j] == GroupOf(rows + [r], after[j].id)
    {
      GroupOfSnoc(rows, r, orders[j].id);
      if j != k {
        assert Keys(orders, OrderId)[j] != Keys(orders, OrderId)[k];
        assert after[j] == orders[j];
      }
    }
  }

  /** A row of an order not yet seen opens a new order holding its item. */
  lemma GroupedNewRow(rows: seq<Row>, r: Row, orders: seq<Order>)
    requires Grouped(rows, orders)
    requires r.orderId !in Keys(orders, OrderId)
    ensures Grouped(rows + [r], orders + [HeaderOf(r).(items := [ItemOf(r)])])
  {
    var ids := Keys(rows, RowOrderId);
    FirstSeenSnoc(ids, r.orderId);
    KeysSnoc(rows, r, RowOrderId);
    var o := HeaderOf(r).(items := [ItemOf(r)]);
    TotalItemsSnoc(orders, o);
    KeysSnoc(orders, o, OrderId);
    FirstSeenSpec(ids);
    NewRowGroups(rows, r, orders);
  }

  /** The orders after a new row are the groups of the longer row list. */
  lemma NewRowGroups(rows: seq<Row>, r: Row, orders: seq<Order>)
    requires forall k :: 0 <= k < |orders| ==>
               FirstRowFor(rows, orders[k].id).Some? && orders[k] == GroupOf(rows, orders[k].id)
    requires r.orderId !in Keys(orders, OrderId) && r.orderId !in Keys(rows, RowOrderId)
    ensures var after := orders + [HeaderOf(r).(items := [ItemOf(r)])];
            forall j :: 0 <= j < |after| ==>
              FirstRowFor(rows + [r], after[j].id).Some? && after[j] == GroupOf(rows + [r], after[j].id)
  {
    var after := orders + [HeaderOf(r).(items := [ItemOf(r)])];
    forall j | 0 <= j < |after|
      ensures FirstRowFor(rows + [r], after[j].id).Some? && after[j] == GroupOf(rows + [r], after[j].id)
    {
      if j < |orders| {
        assert after[j] == orders[j];
        assert Keys(orders, OrderId)[j] == orders[j].id;
        GroupOfSnoc(rows, r, orders[j].id);
      } else {
        FirstRowForSpec(rows, r.orderId);
        GroupOfSnoc(rows, r, r.orderId);
      }
    }
  }

  /** The row loop of `get_customer_order_history` and `get_all_orders`: a dict
      keyed by order id, filled in row order. Orders come out once per distinct
      id, in first-occurrence order; each is its first row's header with one
      item per row of that order, in row order; so the row count is the item
      count. */
  method GroupRows(rows: seq<Row>) returns (orders: seq<Order>)
    ensures Keys(orders, OrderId) == FirstSeen(Keys(rows, RowOrderId))
    ensures forall k :: 0 <= k < |orders| ==>
              FirstRowFor(rows, orders[k].id).Some? && orders[k] == GroupOf(rows, orders[k].id)
    ensures TotalItems(orders) == |rows|
  {
    orders := [];
    for i := 0 to |rows|
      invariant Grouped(rows[..i], orders)
    {
      assert rows[..i + 1] == rows[..i] + [rows[i]];
      orders := AddRow(orders, rows[i], rows[..i]);
    }
    assert rows[..|rows|] == rows;
  }

  /** One pass of the row loop: open the row's order if it is new, then
      append the row's item to it. */
  method AddRow(orders: seq<Order>, row: Row, ghost rows: seq<Row>) returns (orders': seq<Order>)
    requires Grouped(rows, orders)
    ensures Grouped(rows + [row], orders')
  {
    var found := FirstIndex(orders, (o: Order) => o.id == row.orderId);
    if found.None? {
      // order_id not in orders: start it with the row's header
      GroupedNewRow(rows, row, orders);
      orders' := orders + [HeaderOf(row)];
      var k := |orders'| - 1;
      orders' := orders'[k := orders'[k].(items := orders'[k].items + [ItemOf(row)])];
    } else {
      var k := found.value;
      GroupedKnownRow(rows, row, orders, k);
      orders' := orders[k := orders[k].(items := orders[k].items + [ItemOf(row)])];
    }
  }

  // ------------------------------------------------------------------------
  // Query text and parameters.

  datatype SqlParam = IntParam(i: int) | TextParam(t: string)

  /** psycopg2 reads every `%` of a query as the start of a placeholder, so a
      query is well-formed for its parameter list when the two counts agree. */
  function Placeholders(q: string): nat { CountChar(q, '%') }

  /** Python truthiness of an optional string (None and "" are false). */
  predicate TruthyText(s: Option<string>) { s.Some? && s.value != "" }

  /** Python truthiness of an optional int (None and 0 are false). */
  predicate TruthyInt(n: Option<int>) { n.Some? && n.value != 0 }

  const MenuSelect: string := "SELECT * FROM menu_items"
  const CategoryCondition: string := "category = %s"
  const AvailableCondition: string := "is_available = TRUE"

  /** The fixed fragments hold one `%` per placeholder they introduce. */
  lemma PlaceholderCounts()
    ensures Placeholders(MenuSelect) == 0
    ensures Placeholders(MenuSelect + " WHERE ") == 0
    ensures Placeholders(CategoryCondition) == 1
    ensures Placeholders(AvailableCondition) == 0
    ensures Placeholders(" AND " + AvailableCondition) == 0
    ensures Placeholders(" LIMIT %s") == 1
  {
    NoPlaceholders();
    OnePlaceholder("category = ");
    assert CategoryCondition == "category = " + "%s";
    OnePlaceholder(" LIMIT ");
    assert " LIMIT %s" == " LIMIT " + "%s";
  }

  lemma NoPlaceholders()
    ensures Placeholders(MenuSelect) == 0
    ensures Placeholders(MenuSelect + " WHERE ") == 0
    ensures Placeholders(AvailableCondition) == 0
    ensures Placeholders(" AND " + AvailableCondition) == 0
  {
    CountAbsent(MenuSelect, '%');
    CountAbsent(MenuSelect + " WHERE ", '%');
    CountAbsent(AvailableCondition, '%');
    CountAbsent(" AND " + AvailableCondition, '%');
  }

  /** A `%`-free fragment followed by `%s` holds one placeholder. */
  lemma OnePlaceholder(s: string)
    requires '%' !in s
    ensures Placeholders(s + "%s") == 1
  {
    CountAbsent(s, '%');
    CountAppend(s, "%s", '%');
    assert "%s"[..1] == "%";
  }

  /** The query and parameters of `get_menu_items`. */
  method MenuItemsQuery(category: Option<string>, availableOnly: bool)
    returns (query: string, params: seq<SqlParam>)
    ensures !TruthyText(category) && !availableOnly ==> query == MenuSelect
    ensures !TruthyText(category) && availableOnly ==> query == MenuSelect + " WHERE " + AvailableCondition
    ensures TruthyText(category) && !availableOnly ==> query == MenuSelect + " WHERE " + CategoryCondition
    ensures TruthyText(category) && availableOnly ==>
              query == MenuSelect + " WHERE " + CategoryCondition + " AND " + AvailableCondition
    ensures params == if TruthyText(category) then [TextParam(category.value)] else []
    ensures Placeholders(query) == |params|
  {
    query := MenuSelect;
    params := [];
    var conditions: seq<string> := [];
    if TruthyText(category) {
      conditions := conditions + [CategoryCondition];
      params := params + [TextParam(category.value)];
    }
    if availableOnly {
      conditions := conditions + [AvailableCondition];
    }
    if conditions != [] {
      var joined := Join(conditions, " AND ");
      if |conditions| == 2 {
        assert conditions == [CategoryCondition] + [AvailableCondition];
        JoinCons(CategoryCondition, [AvailableCondition], " AND ");
        assert joined == CategoryCondition + " AND " + AvailableCondition;
      }
      query := query + " WHERE " + joined;
    }
    MenuQueryPlaceholders();
  }

  /** Each of the four `get_menu_items` queries holds one `%` when it filters
      by category and none otherwise. */
  lemma MenuQueryPlaceholders()
    ensures Placeholders(MenuSelect) == 0
    ensures Placeholders(MenuSelect + " WHERE " + AvailableCondition) == 0
    ensures Placeholders(MenuSelect + " WHERE " + CategoryCondition) == 1
    ensures Placeholders(MenuSelect + " WHERE " + CategoryCondition + " AND " + AvailableCondition) == 1
  {
    PlaceholderCounts();
    var head := MenuSelect + " WHERE ";
    CountAppend(head, AvailableCondition, '%');
    CategoryQueryPlaceholders(head);
  }

  lemma CategoryQueryPlaceholders(head: string)
    requires Placeholders(head) == 0 && Placeholders(CategoryCondition) == 1
    requires Placeholders(" AND " + AvailableCondition) == 0
    ensures Placeholders(head + CategoryCondition) == 1
    ensures Placeholders(head + CategoryCondition + " AND " + AvailableCondition) == 1
  {
    var tail := " AND " + AvailableCondition;
    CountAppend(head, CategoryCondition, '%');
    CountAppend(head + CategoryCondition, tail, '%');
    assert head + CategoryCondition + " AND " + AvailableCondition == (head + CategoryCondition) + tail;
  }

  /** `if limit: query += ' LIMIT %s'; params.append(limit)`. */
  method AppendLimit(query: string, params: seq<SqlParam>, limit: Option<int>)
    returns (query': string, params': seq<SqlParam>)
    ensures TruthyInt(limit) ==> query' == query + " LIMIT %s" && params' == params + [IntParam(limit.value)]
    ensures !TruthyInt(limit) ==> query' == query && params' == params
    ensures Placeholders(query') - |params'| == Placeholders(query) - |params|
  {
    query', params' := query, params;
    if TruthyInt(limit) {
      PlaceholderCounts();
      CountAppend(query, " LIMIT %s", '%');
      query' := query' + " LIMIT %s";
      params' := params' + [IntParam(limit.value)];
    }
  }

  // ------------------------------------------------------------------------
  // `add_order`.

  function LineTotal(it: NewOrderItem): real { it.unitPrice * (it.quantity as real) }

  /** `sum(float(item['unit_price']) * item['quantity'] for item in items)`. */
  function OrderTotal(items: seq<NewOrderItem>): real { SumOf(items, LineTotal) }

  /** The total of a concatenation is the sum of the totals. */
  lemma OrderTotalAppend(a: seq<NewOrderItem>, b: seq<NewOrderItem>)
    ensures OrderTotal(a + b) == OrderTotal(a) + OrderTotal(b)
  {
    SumOfAppend(a, b, LineTotal);
  }

  /** With non-negative prices and quantities the total is non-negative, and
      it is at least each line's price times quantity. */
  lemma {:induction false} OrderTotalBounds(items: seq<NewOrderItem>)
    requires forall k :: 0 <= k < |items| ==> items[k].unitPrice >= 0.0 && items[k].quantity >= 0
    ensures OrderTotal(items) >= 0.0
    ensures forall k :: 0 <= k < |items| ==> OrderTotal(items) >= LineTotal(items[k])
  {
    if items != [] {
      var init := items[..|items| - 1];
      OrderTotalBounds(init);
      assert OrderTotal(items) == OrderTotal(init) + LineTotal(items[|items| - 1]);
      forall k | 0 <= k < |items| ensures OrderTotal(items) >= LineTotal(items[k]) {
        if k < |items| - 1 {
          assert items[k] == init[k];
        }
      }
    }
  }
}
