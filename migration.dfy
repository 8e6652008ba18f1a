/** The order copying of `migrate_to_postgresql.py`: old ids are matched to
    new ones by name (and e-mail, for customers), order lines whose item has
    no new id are dropped, and an order is copied only when it keeps at
    least one line and its customer has a new id. The two databases are
    inputs: the rows read from SQLite and the tables already in PostgreSQL. */
module Migration {
  import opened Seqs
  import opened CafeData

  // ------------------------------------------------------------------------
  // Id mappings: for each source row, the id of the first target row with
  // the same key, found by a nested loop that breaks at the first match.

  /** The index of the first target whose key is `k`. */
  function FirstMatch<T, K(==)>(tgt: seq<T>, tkey: T -> K, k: K): (r: Option<nat>)
    ensures r.Some? ==> r.value < |tgt| && tkey(tgt[r.value]) == k && forall j :: 0 <= j < r.value ==> tkey(tgt[j]) != k
    ensures r.None? ==> forall j :: 0 <= j < |tgt| ==> tkey(tgt[j]) != k
  {
    if tgt == [] then None
    else if tkey(tgt[0]) == k then Some(0)
    else match FirstMatch(tgt[1..], tkey, k)
      case None => None
      case Some(j) => Some(j + 1)
  }

  /** The mapping dict after the outer loop has seen `src`: each source id
      with a match sends to the id of its first match; a later row with the
      same id overwrites an earlier one. */
  function MatchMap<S, T, K(==)>(src: seq<S>, sid: S -> int, skey: S -> K, tgt: seq<T>, tid: T -> int, tkey: T -> K): map<int, int> {
    if src == [] then map[]
    else
      var m := MatchMap(src[..|src| - 1], sid, skey, tgt, tid, tkey);
      var s := src[|src| - 1];
      match FirstMatch(tgt, tkey, skey(s))
      case None => m
      case Some(j) => m[sid(s) := tid(tgt[j])]
  }

  /** Some row of `src` carries `id` and has a match. */
  ghost predicate Matched<S, T, K>(src: seq<S>, sid: S -> int, skey: S -> K, tgt: seq<T>, tkey: T -> K, id: int) {
    exists i :: 0 <= i < |src| && sid(src[i]) == id && FirstMatch(tgt, tkey, skey(src[i])).Some?
  }

  /** Some row of `src` carries `id` and has its first match's id `v`. */
  ghost predicate MatchedTo<S, T, K>(src: seq<S>, sid: S -> int, skey: S -> K, tgt: seq<T>, tid: T -> int, tkey: T -> K, id: int, v: int) {
    exists i :: 0 <= i < |src| && sid(src[i]) == id && FirstMatch(tgt, tkey, skey(src[i])).Some? &&
                v == tid(tgt[FirstMatch(tgt, tkey, skey(src[i])).value])
  }

  /** A mapped id comes from a source row with that id, and is mapped to
      the first match of such a row. */
  lemma {:induction false} MatchMapFrom<S, T, K>(src: seq<S>, sid: S -> int, skey: S -> K, tgt: seq<T>, tid: T -> int, tkey: T -> K, id: int)
    requires id in MatchMap(src, sid, skey, tgt, tid, tkey)
    ensures MatchedTo(src, sid, skey, tgt, tid, tkey, id, MatchMap(src, sid, skey, tgt, tid, tkey)[id])
  {
    var init := src[..|src| - 1];
    var s := src[|src| - 1];
    var m0 := MatchMap(init, sid, skey, tgt, tid, tkey);
    var m := MatchMap(src, sid, skey, tgt, tid, tkey);
    var last := FirstMatch(tgt, tkey, skey(s));
    if last.Some? && id == sid(s) {
      assert m[id] == tid(tgt[last.value]);
      assert src[|src| - 1] == s;
    } else {
      assert id in m0 && m[id] == m0[id];
      MatchMapFrom(init, sid, skey, tgt, tid, tkey, id);
      var i :| 0 <= i < |init| && sid(init[i]) == id && FirstMatch(tgt, tkey, skey(init[i])).Some? &&
               m0[id] == tid(tgt[FirstMatch(tgt, tkey, skey(init[i])).value]);
      assert src[i] == init[i];
    }
  }

  /** Every row with a match has its id mapped. */
  lemma {:induction false} MatchMapHas<S, T, K>(src: seq<S>, sid: S -> int, skey: S -> K, tgt: seq<T>, tid: T -> int, tkey: T -> K, i: nat)
    requires i < |src| && FirstMatch(tgt, tkey, skey(src[i])).Some?
    ensures sid(src[i]) in MatchMap(src, sid, skey, tgt, tid, tkey)
  {
    var init := src[..|src| - 1];
    if i < |src| - 1 {
      assert src[i] == init[i];
      MatchMapHas(init, sid, skey, tgt, tid, tkey, i);
    }
  }

  /** A source id is mapped exactly when some source row with that id has a
      match, and it is mapped to the first match of such a row. */
  lemma MatchMapSpec<S, T, K>(src: seq<S>, sid: S -> int, skey: S -> K, tgt: seq<T>, tid: T -> int, tkey: T -> K)
    ensures var m := MatchMap(src, sid, skey, tgt, tid, tkey);
      forall id :: id in m <==> Matched(src, sid, skey, tgt, tkey, id)
    ensures var m := MatchMap(src, sid, skey, tgt, tid, tkey);
      forall id :: id in m ==> MatchedTo(src, sid, skey, tgt, tid, tkey, id, m[id])
  {
    var m := MatchMap(src, sid, skey, tgt, tid, tkey);
    forall id | id in m ensures MatchedTo(src, sid, skey, tgt, tid, tkey, id, m[id]) && Matched(src, sid, skey, tgt, tkey, id) {
      MatchMapFrom(src, sid, skey, tgt, tid, tkey, id);
    }
    forall id | Matched(src, sid, skey, tgt, tkey, id) ensures id in m {
      var i :| 0 <= i < |src| && sid(src[i]) == id && FirstMatch(tgt, tkey, skey(src[i])).Some?;
      MatchMapHas(src, sid, skey, tgt, tid, tkey, i);
    }
  }

  /** With distinct source ids (they are primary keys) every matched source
      id sends to its own row's first match. */
  lemma MatchMapDistinct<S, T, K>(src: seq<S>, sid: S -> int, skey: S -> K, tgt: seq<T>, tid: T -> int, tkey: T -> K, i: nat)
    requires Distinct(Keys(src, sid)) && i < |src| && FirstMatch(tgt, tkey, skey(src[i])).Some?
    ensures var m := MatchMap(src, sid, skey, tgt, tid, tkey);
      sid(src[i]) in m && m[sid(src[i])] == tid(tgt[FirstMatch(tgt, tkey, skey(src[i])).value])
  {
    MatchMapSpec(src, sid, skey, tgt, tid, tkey);
    var m := MatchMap(src, sid, skey, tgt, tid, tkey);
    var id := sid(src[i]);
    assert Matched(src, sid, skey, tgt, tkey, id);
    assert MatchedTo(src, sid, skey, tgt, tid, tkey, id, m[id]);
    var i' :| 0 <= i' < |src| && sid(src[i']) == id && FirstMatch(tgt, tkey, skey(src[i'])).Some? &&
              m[id] == tid(tgt[FirstMatch(tgt, tkey, skey(src[i'])).value]);
    assert Keys(src, sid)[i] == Keys(src, sid)[i'];
    DistinctIndex(Keys(src, sid), i, i');
  }

  /** The nested loops with `break`. */
  method MatchIds<S, T, K(==)>(src: seq<S>, sid: S -> int, skey: S -> K, tgt: seq<T>, tid: T -> int, tkey: T -> K)
    returns (m: map<int, int>)
    ensures m == MatchMap(src, sid, skey, tgt, tid, tkey)
  {
    m := map[];
    for i := 0 to |src|
      invariant m == MatchMap(src[..i], sid, skey, tgt, tid, tkey)
    {
      assert src[..i + 1][..i] == src[..i];
      var s := src[i];
      ghost var before := m;
      var j := 0;
      while j < |tgt|
        invariant 0 <= j <= |tgt| && m == before
        invariant forall q :: 0 <= q < j ==> tkey(tgt[q]) != skey(s)
      {
        if tkey(tgt[j]) == skey(s) {
          assert FirstMatch(tgt, tkey, skey(s)) == Some(j);
          m := m[sid(s) := tid(tgt[j])];
          break;
        }
        j := j + 1;
      }
    }
    assert src[..|src|] == src;
  }

  function CustomerId(c: Customer): int { c.id }

  /** Customers are matched on name and e-mail; `None == None` holds in
      Python, so two customers without e-mail match. */
  function CustomerKey(c: Customer): (string, Option<string>) { (c.name, c.email) }

  /** `get_customer_mapping`. */
  method CustomerMapping(source: seq<Customer>, target: seq<Customer>) returns (m: map<int, int>)
    ensures m == MatchMap(source, CustomerId, CustomerKey, target, CustomerId, CustomerKey)
  {
    m := MatchIds(source, CustomerId, CustomerKey, target, CustomerId, CustomerKey);
  }

  /** A row of `SELECT id, name FROM menu_items`. */
  datatype NamedRow = NamedRow(id: int, name: string)

  function RowId(r: NamedRow): int { r.id }
  function RowName(r: NamedRow): string { r.name }
  function ItemName(m: MenuItem): string { m.name }

  /** `get_menu_item_mapping`: items are matched on name alone. */
  method MenuItemMapping(source: seq<NamedRow>, target: seq<MenuItem>) returns (m: map<int, int>)
    ensures m == MatchMap(source, RowId, RowName, target, ItemId, ItemName)
  {
    m := MatchIds(source, RowId, RowName, target, ItemId, ItemName);
  }

  // ------------------------------------------------------------------------
  // `migrate_orders`.

  /** A row of `order_items`; `customizations` is JSON text or NULL. */
  datatype SourceItem = SourceItem(menuItemId: int, quantity: int, unitPrice: real, customizations: Option<string>)

  /** A row of `orders` with its item rows. */
  datatype SourceOrder = SourceOrder(id: int, customerId: int, orderDate: Option<int>, notes: Option<string>, items: seq<SourceItem>)

  /** What is written to PostgreSQL for one order: the `add_order` call and,
      when the old order has a date, the date set on the new one. */
  datatype MigratedOrder = MigratedOrder(sourceId: int, customerId: int, items: seq<NewOrderItem>, notes: Option<string>, orderDate: Option<int>)

  /** `mapping.get(id)` read through `if not ...`: a missing id, and equally
      an id mapped to the falsy 0, count as unmapped. */
  function Mapped(m: map<int, int>, id: int): (r: Option<int>)
    ensures r.Some? <==> id in m && m[id] != 0
    ensures r.Some? ==> r.value == m[id]
  {
    if id in m && m[id] != 0 then Some(m[id]) else None
  }

  /** The customizations of a copied line: parsed JSON, or `{}` when the text
      is NULL or empty or does not parse. `parse` is `json.loads`. */
  function ParsedCustomizations(raw: Option<string>, parse: string -> Option<Customizations>): (r: Customizations)
    ensures (raw.None? || raw.value == "") ==> r == map[]
    ensures raw.Some? && raw.value != "" && parse(raw.value).None? ==> r == map[]
    ensures raw.Some? && raw.value != "" && parse(raw.value).Some? ==> r == parse(raw.value).value
  {
    if raw.None? || raw.value == "" then map[]
    else match parse(raw.value)
      case None => map[]
      case Some(c) => c
  }

  /** One line as copied: re-pointed to the new menu id, with quantity and
      price as they were; `None` when the item has no new id. */
  function Remapped(it: SourceItem, menuMap: map<int, int>, parse: string -> Option<Customizations>): (r: Option<NewOrderItem>)
    ensures r.Some? <==> Mapped(menuMap, it.menuItemId).Some?
    ensures r.Some? ==> r.value.menuItemId == menuMap[it.menuItemId] && r.value.quantity == it.quantity && r.value.unitPrice == it.unitPrice
  {
    match Mapped(menuMap, it.menuItemId)
    case None => None
    case Some(id) => Some(NewOrderItem(id, it.quantity, it.unitPrice, ParsedCustomizations(it.customizations, parse)))
  }

  /** `order_items` after the inner loop. */
  function RemapItems(items: seq<SourceItem>, menuMap: map<int, int>, parse: string -> Option<Customizations>): seq<NewOrderItem> {
    if items == [] then []
    else
      var r := RemapItems(items[..|items| - 1], menuMap, parse);
      match Remapped(items[|items| - 1], menuMap, parse)
      case None => r
      case Some(it) => r + [it]
  }

  /** The copied lines are the remapped lines with a new id, in order: each
      comes from a source line, no line with a new id is lost, and no line
      survives when none has one. */
  lemma {:induction false} RemapItemsSpec(items: seq<SourceItem>, menuMap: map<int, int>, parse: string -> Option<Customizations>)
    ensures var r := RemapItems(items, menuMap, parse);
      && |r| <= |items|
      && (forall k :: 0 <= k < |r| ==> exists j :: 0 <= j < |items| && Remapped(items[j], menuMap, parse) == Some(r[k]))
      && (forall j :: 0 <= j < |items| && Remapped(items[j], menuMap, parse).Some? ==> Remapped(items[j], menuMap, parse).value in r)
      && (r == [] <==> forall j :: 0 <= j < |items| ==> Mapped(menuMap, items[j].menuItemId).None?)
  {
    if items != [] {
      var init := items[..|items| - 1];
      var last := items[|items| - 1];
      RemapItemsSpec(init, menuMap, parse);
      var r0 := RemapItems(init, menuMap, parse);
      var r := RemapItems(items, menuMap, parse);
      assert forall j :: 0 <= j < |init| ==> init[j] == items[j];
      forall k | 0 <= k < |r| ensures exists j :: 0 <= j < |items| && Remapped(items[j], menuMap, parse) == Some(r[k]) {
        if k < |r0| {
          var j :| 0 <= j < |init| && Remapped(init[j], menuMap, parse) == Some(r0[k]);
          assert r[k] == r0[k];
        } else {
          assert Remapped(items[|items| - 1], menuMap, parse) == Some(r[k]);
        }
      }
    }
  }

  /** The inner loop of `migrate_orders`, with its `continue`. */
  method RemapOrderItems(items: seq<SourceItem>, menuMap: map<int, int>, parse: string -> Option<Customizations>)
    returns (out: seq<NewOrderItem>)
    ensures out == RemapItems(items, menuMap, parse)
  {
    out := [];
    for i := 0 to |items|
      invariant out == RemapItems(items[..i], menuMap, parse)
    {
      assert items[..i + 1][..i] == items[..i];
      var it := items[i];
      if !(it.menuItemId in menuMap && menuMap[it.menuItemId] != 0) {
        continue;
      }
      var customizations: Customizations := map[];
      if it.customizations.Some? && it.customizations.value != "" {
        var parsed := parse(it.customizations.value);
        if parsed.Some? {
          customizations := parsed.value;
        }
      }
      out := out + [NewOrderItem(menuMap[it.menuItemId], it.quantity, it.unitPrice, customizations)];
    }
    assert items[..|items|] == items;
  }

  /** One order as the outer loop treats it: skipped without item rows,
      skipped when no line survives, skipped when the customer has no new
      id; otherwise copied with its surviving lines under the new customer. */
  function MigrateOne(o: SourceOrder, customerMap: map<int, int>, menuMap: map<int, int>, parse: string -> Option<Customizations>): (r: Option<MigratedOrder>)
    ensures r.None? <==> o.items == [] || RemapItems(o.items, menuMap, parse) == [] || Mapped(customerMap, o.customerId).None?
    ensures r.Some? ==>
              && r.value.sourceId == o.id && r.value.customerId == customerMap[o.customerId]
              && r.value.items == RemapItems(o.items, menuMap, parse) && r.value.items != []
              && r.value.notes == o.notes && r.value.orderDate == o.orderDate
  {
    if o.items == [] then None
    else
      var items := RemapItems(o.items, menuMap, parse);
      if items == [] then None
      else match Mapped(customerMap, o.customerId)
        case None => None
        case Some(c) => Some(MigratedOrder(o.id, c, items, o.notes, o.orderDate))
  }

  /** The orders written, in source order. `inserts` says whether
      `add_order` succeeds for an order (a failure is caught and reported). */
  function Migrated(orders: seq<SourceOrder>, customerMap: map<int, int>, menuMap: map<int, int>,
                    parse: string -> Option<Customizations>, inserts: MigratedOrder -> bool): seq<MigratedOrder>
  {
    if orders == [] then []
    else
      var done := Migrated(orders[..|orders| - 1], customerMap, menuMap, parse, inserts);
      match MigrateOne(orders[|orders| - 1], customerMap, menuMap, parse)
      case None => done
      case Some(m) => if inserts(m) then done + [m] else done
  }

  /** At most one copy per source order; every copy is a source order that
      passed the skip rules and was inserted, every such order is copied,
      and the copies keep the source order. */
  lemma {:induction false} MigratedSpec(orders: seq<SourceOrder>, customerMap: map<int, int>, menuMap: map<int, int>,
                                        parse: string -> Option<Customizations>, inserts: MigratedOrder -> bool)
    ensures var ms := Migrated(orders, customerMap, menuMap, parse, inserts);
      && |ms| <= |orders|
      && (forall k :: 0 <= k < |ms| ==>
            inserts(ms[k]) && exists j :: 0 <= j < |orders| && MigrateOne(orders[j], customerMap, menuMap, parse) == Some(ms[k]))
      && (forall j :: 0 <= j < |orders| && MigrateOne(orders[j], customerMap, menuMap, parse).Some? &&
                      inserts(MigrateOne(orders[j], customerMap, menuMap, parse).value) ==>
            MigrateOne(orders[j], customerMap, menuMap, parse).value in ms)
      && exists idx :: TakenAt(ms, orders, customerMap, menuMap, parse, idx)
  {
    MigratedInOrder(orders, customerMap, menuMap, parse, inserts);
    if orders != [] {
      var init := orders[..|orders| - 1];
      MigratedSpec(init, customerMap, menuMap, parse, inserts);
      var ms0 := Migrated(init, customerMap, menuMap, parse, inserts);
      var ms := Migrated(orders, customerMap, menuMap, parse, inserts);
      assert forall j :: 0 <= j < |init| ==> init[j] == orders[j];
      forall k | 0 <= k < |ms|
        ensures inserts(ms[k]) && exists j :: 0 <= j < |orders| && MigrateOne(orders[j], customerMap, menuMap, parse) == Some(ms[k])
      {
        if k < |ms0| {
          var j :| 0 <= j < |init| && MigrateOne(init[j], customerMap, menuMap, parse) == Some(ms0[k]);
          assert ms[k] == ms0[k];
        } else {
          assert MigrateOne(orders[|orders| - 1], customerMap, menuMap, parse) == Some(ms[k]);
        }
      }
    }
  }

  /** `idx` lists, in increasing order, the source positions the copies `ms`
      were made from. */
  ghost predicate TakenAt(ms: seq<MigratedOrder>, orders: seq<SourceOrder>, customerMap: map<int, int>, menuMap: map<int, int>,
                          parse: string -> Option<Customizations>, idx: seq<nat>) {
    && |idx| == |ms|
    && (forall k :: 0 <= k < |idx| ==> idx[k] < |orders| && MigrateOne(orders[idx[k]], customerMap, menuMap, parse) == Some(ms[k]))
    && (forall k, l :: 0 <= k < l < |idx| ==> idx[k] < idx[l])
  }

  /** The copies keep the source order: they are made from increasing source
      positions. */
  lemma {:induction false} MigratedInOrder(orders: seq<SourceOrder>, customerMap: map<int, int>, menuMap: map<int, int>,
                                           parse: string -> Option<Customizations>, inserts: MigratedOrder -> bool)
    ensures exists idx :: TakenAt(Migrated(orders, customerMap, menuMap, parse, inserts), orders, customerMap, menuMap, parse, idx)
  {
    if orders == [] {
      var none: seq<nat> := [];
      assert TakenAt(Migrated(orders, customerMap, menuMap, parse, inserts), orders, customerMap, menuMap, parse, none);
    } else {
      var init := orders[..|orders| - 1];
      MigratedInOrder(init, customerMap, menuMap, parse, inserts);
      var ms0 := Migrated(init, customerMap, menuMap, parse, inserts);
      var ms := Migrated(orders, customerMap, menuMap, parse, inserts);
      var idx0 :| TakenAt(ms0, init, customerMap, menuMap, parse, idx0);
      assert forall j :: 0 <= j < |init| ==> init[j] == orders[j];
      if ms == ms0 {
        assert TakenAt(ms, orders, customerMap, menuMap, parse, idx0);
      } else {
        var last: nat := |orders| - 1;
        var idx := idx0 + [last];
        assert ms == ms0 + [MigrateOne(orders[last], customerMap, menuMap, parse).value];
        forall k | 0 <= k < |idx0| ensures idx[k] == idx0[k] < last {
        }
        assert TakenAt(ms, orders, customerMap, menuMap, parse, idx);
      }
    }
  }

  /** The `try` block got as far as `migrated_count += 1` for an inserted
      order: it had no date to set, or setting the date succeeded. */
  predicate Counted(m: MigratedOrder, setsDate: MigratedOrder -> bool) {
    m.orderDate.None? || setsDate(m)
  }

  /** How many of the inserted orders were counted. */
  function CountedOrders(ms: seq<MigratedOrder>, setsDate: MigratedOrder -> bool): (n: nat)
    ensures n <= |ms|
    ensures (forall k :: 0 <= k < |ms| ==> Counted(ms[k], setsDate)) ==> n == |ms|
    ensures (forall k :: 0 <= k < |ms| ==> !Counted(ms[k], setsDate)) ==> n == 0
  {
    if ms == [] then 0
    else CountedOrders(ms[..|ms| - 1], setsDate) + (if Counted(ms[|ms| - 1], setsDate) then 1 else 0)
  }

  /** Copying one more source order. */
  lemma MigratedSnoc(orders: seq<SourceOrder>, i: nat, customerMap: map<int, int>, menuMap: map<int, int>,
                     parse: string -> Option<Customizations>, inserts: MigratedOrder -> bool)
    requires i < |orders|
    ensures var done := Migrated(orders[..i], customerMap, menuMap, parse, inserts);
      Migrated(orders[..i + 1], customerMap, menuMap, parse, inserts) ==
        match MigrateOne(orders[i], customerMap, menuMap, parse)
        case None => done
        case Some(m) => if inserts(m) then done + [m] else done
  {
    assert orders[..i + 1][..i] == orders[..i];
  }

  /** Counting one more inserted order. */
  lemma CountedSnoc(ms: seq<MigratedOrder>, m: MigratedOrder, setsDate: MigratedOrder -> bool)
    ensures CountedOrders(ms + [m], setsDate) == CountedOrders(ms, setsDate) + (if Counted(m, setsDate) then 1 else 0)
  {
    assert (ms + [m])[..|ms|] == ms;
  }

  /** The outer loop of `migrate_orders`. `written` holds the orders
      `add_order` inserted, in source order. `count` is `migrated_count`: the
      inserted orders whose date, if they have one, was then set; an order
      whose date `UPDATE` fails stays inserted but is not counted. */
  method MigrateOrders(orders: seq<SourceOrder>, customerMap: map<int, int>, menuMap: map<int, int>,
                       parse: string -> Option<Customizations>, inserts: MigratedOrder -> bool,
                       setsDate: MigratedOrder -> bool)
    returns (written: seq<MigratedOrder>, count: nat)
    ensures written == Migrated(orders, customerMap, menuMap, parse, inserts)
    ensures count == CountedOrders(written, setsDate)
    ensures count <= |written| <= |orders|
  {
    written := [];
    count := 0;
    for i := 0 to |orders|
      invariant written == Migrated(orders[..i], customerMap, menuMap, parse, inserts)
      invariant count == CountedOrders(written, setsDate)
    {
      MigratedSnoc(orders, i, customerMap, menuMap, parse, inserts);
      var o := orders[i];
      if o.items == [] {
        continue;
      }
      var items := RemapOrderItems(o.items, menuMap, parse);
      if items == [] {
        continue;
      }
      if !(o.customerId in customerMap && customerMap[o.customerId] != 0) {
        continue;
      }
      var m := MigratedOrder(o.id, customerMap[o.customerId], items, o.notes, o.orderDate);
      if inserts(m) {
        CountedSnoc(written, m, setsDate);
        written := written + [m];
        if m.orderDate.None? || setsDate(m) {
          count := count + 1;
        }
      }
    }
    assert orders[..|orders|] == orders;
    MigratedSpec(orders, customerMap, menuMap, parse, inserts);
  }

  /** `migrate_all`, from the point where customers and menu items have been
      copied: nothing happens and `False` is returned when the SQLite file is
      missing or PostgreSQL cannot be reached; otherwise the mappings are
      built and the orders copied. */
  method MigrateAll(sourceExists: bool, connected: bool,
                    sourceCustomers: seq<Customer>, targetCustomers: seq<Customer>,
                    sourceItems: seq<NamedRow>, targetItems: seq<MenuItem>,
                    orders: seq<SourceOrder>, parse: string -> Option<Customizations>, inserts: MigratedOrder -> bool,
                    setsDate: MigratedOrder -> bool)
    returns (ok: bool, written: seq<MigratedOrder>)
    ensures !sourceExists || !connected ==> !ok && written == []
    ensures sourceExists && connected ==>
              && ok
              && written == Migrated(orders, MatchMap(sourceCustomers, CustomerId, CustomerKey, targetCustomers, CustomerId, CustomerKey),
                                     MatchMap(sourceItems, RowId, RowName, targetItems, ItemId, ItemName), parse, inserts)
  {
    if !sourceExists {
      return false, [];
    }
    if !connected {
      return false, [];
    }
    var customerMap := CustomerMapping(sourceCustomers, targetCustomers);
    var menuMap := MenuItemMapping(sourceItems, targetItems);
    var count;
    written, count := MigrateOrders(orders, customerMap, menuMap, parse, inserts, setsDate);
    ok := true;
  }
}
