/** The records that the storage layer hands to the rest of the system, as
    the row dictionaries of `database_manager.py` carry them. */
module CafeData {
  import opened Seqs

  /** A row of `menu_items`; `category` is "food" or "drink". */
  datatype MenuItem = MenuItem(
    id: int,
    name: string,
    category: string,
    subcategory: Option<string>,
    price: real,
    ingredients: seq<string>,
    isAvailable: bool)

  /** A decoded `customizations` JSON object. */
  type Customizations = map<string, string>

  /** One line of an order as `get_customer_order_history` builds it. */
  datatype OrderItem = OrderItem(
    menuItemId: int,
    quantity: int,
    unitPrice: real,
    customizations: Customizations,
    itemName: string,
    category: string,
    subcategory: Option<string>)

  /** An order with its lines; `orderDate` is a timestamp in seconds. */
  datatype Order = Order(
    id: int,
    customerId: int,
    orderDate: int,
    totalAmount: real,
    notes: Option<string>,
    items: seq<OrderItem>)

  /** The item dictionary handed to `add_order`. */
  datatype NewOrderItem = NewOrderItem(
    menuItemId: int,
    quantity: int,
    unitPrice: real,
    customizations: Customizations)

  datatype Customer = Customer(id: int, name: string, email: Option<string>)

  function ItemId(m: MenuItem): int { m.id }

  function OrderId(o: Order): int { o.id }

  /** `item['menu_item_id']` of an order line. */
  function LineItemId(it: OrderItem): int { it.menuItemId }

  /** `item['item_name']` of an order line. */
  function LineName(it: OrderItem): string { it.itemName }

  /** The catalog entry with id `id`, the first one if several:
      `next((item for item in menu_items if item['id'] == id), None)`. */
  function FindItem(catalog: seq<MenuItem>, id: int): (r: Option<MenuItem>)
    ensures r.Some? ==> r.value in catalog && r.value.id == id
    ensures r.None? ==> forall k :: 0 <= k < |catalog| ==> catalog[k].id != id
    ensures r.Some? ==> exists k :: 0 <= k < |catalog| && catalog[k] == r.value &&
                          forall j :: 0 <= j < k ==> catalog[j].id != id
  {
    match FirstIndex(catalog, (m: MenuItem) => m.id == id)
    case None => None
    case Some(k) => Some(catalog[k])
  }
}
