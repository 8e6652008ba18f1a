/** The data handling inside the Flask routes of `app.py`: the comma lists and
    optional fields of `add_menu_item`, the `quantity_<id>` fields of
    `create_order`, the aggregates of `customer_stats` and the order list of
    `orders`. Requests, responses and database calls are inputs and outputs. */
module WebForms {
  import opened Seqs
  import opened Text
  import opened CafeData
  import opened Dicts
  import opened Counter
  import opened OrderStore

  /** Why a route's `try` block failed: a `KeyError` on a missing field or a
      `ValueError` from `int()`/`float()`, or the customer was not found. */
  datatype FormError = MissingField(field: string) | BadNumber(text: string) | CustomerNotFound

  datatype Result<T> = Ok(value: T) | Err(error: FormError)

  /** The fields of a submitted form, in submission order. */
  type Fields = seq<(string, string)>

  /** `request.form.get(key)`: the value of the first field named `key`. */
  function Lookup(fields: Fields, key: string): (r: Option<string>)
    ensures r.Some? ==> exists j :: 0 <= j < |fields| && fields[j] == (key, r.value)
    ensures r.None? ==> forall j :: 0 <= j < |fields| ==> fields[j].0 != key
  {
    if fields == [] then None
    else if fields[0].0 == key then Some(fields[0].1)
    else
      var r := Lookup(fields[1..], key);
      assert r.Some? ==> exists j :: 0 <= j < |fields[1..]| && fields[1..][j] == (key, r.value);
      r
  }

  /** `request.form.get(key, default)`. */
  function Get(fields: Fields, key: string, default: string): string {
    match Lookup(fields, key) case Some(v) => v case None => default
  }

  // ------------------------------------------------------------------------
  // Comma lists: `[x.strip() for x in text.split(',') if x.strip()]`.

  function Cleaned(parts: seq<string>): seq<string> {
    if parts == [] then []
    else
      var c := Cleaned(parts[..|parts| - 1]);
      var t := Strip(parts[|parts| - 1]);
      if t == [] then c else c + [t]
  }

  /** The entries of a comma list. */
  function CleanList(text: string): seq<string> {
    Cleaned(Split(text, ','))
  }

  /** The cleaned pieces are the non-empty stripped pieces, in order: each is
      trimmed and is the stripped form of a piece, and no piece with content
      is lost. */
  lemma CleanedSpec(parts: seq<string>)
    ensures |Cleaned(parts)| <= |parts|
    ensures forall k :: 0 <= k < |Cleaned(parts)| ==> IsTrimmed(Cleaned(parts)[k])
    ensures forall k :: 0 <= k < |Cleaned(parts)| ==> exists j :: 0 <= j < |parts| && Cleaned(parts)[k] == Strip(parts[j])
    ensures forall j :: 0 <= j < |parts| && Strip(parts[j]) != [] ==> Strip(parts[j]) in Cleaned(parts)
  {
    CleanedSound(parts);
    CleanedComplete(parts);
  }

  lemma {:induction false} CleanedSound(parts: seq<string>)
    ensures |Cleaned(parts)| <= |parts|
    ensures forall k :: 0 <= k < |Cleaned(parts)| ==> IsTrimmed(Cleaned(parts)[k])
    ensures forall k :: 0 <= k < |Cleaned(parts)| ==> exists j :: 0 <= j < |parts| && Cleaned(parts)[k] == Strip(parts[j])
  {
    if parts != [] {
      var init := parts[..|parts| - 1];
      var last := parts[|parts| - 1];
      CleanedSound(init);
      StripClean(last);
      var ci := Cleaned(init);
      var t := Strip(last);
      var c := Cleaned(parts);
      assert c == if t == [] then ci else ci + [t];
      forall k | 0 <= k < |c| ensures IsTrimmed(c[k]) && exists j :: 0 <= j < |parts| && c[k] == Strip(parts[j]) {
        if k < |ci| {
          assert c[k] == ci[k];
          var j :| 0 <= j < |init| && ci[k] == Strip(init[j]);
          StrippedFromPrefix(parts, j, ci[k]);
        } else {
          assert c[k] == t;
        }
      }
    }
  }

  lemma StrippedFromPrefix(parts: seq<string>, j: nat, x: string)
    requires j < |parts| - 1 && x == Strip(parts[..|parts| - 1][j])
    ensures x == Strip(parts[j])
  {
  }

  lemma {:induction false} CleanedComplete(parts: seq<string>)
    ensures forall j :: 0 <= j < |parts| && Strip(parts[j]) != [] ==> Strip(parts[j]) in Cleaned(parts)
  {
    if parts != [] {
      var init := parts[..|parts| - 1];
      CleanedComplete(init);
      var ci := Cleaned(init);
      var t := Strip(parts[|parts| - 1]);
      var c := Cleaned(parts);
      assert c == if t == [] then ci else ci + [t];
      forall j | 0 <= j < |parts| && Strip(parts[j]) != [] ensures Strip(parts[j]) in c {
        if j < |parts| - 1 {
          assert parts[j] == init[j];
          var k :| 0 <= k < |ci| && ci[k] == Strip(init[j]);
          assert c[k] == ci[k];
        } else {
          assert c[|c| - 1] == t;
        }
      }
    }
  }

  /** Pieces that are already clean survive cleaning unchanged. */
  lemma {:induction false} CleanedClean(parts: seq<string>)
    requires forall k :: 0 <= k < |parts| ==> IsTrimmed(parts[k])
    ensures Cleaned(parts) == parts
  {
    if parts != [] {
      var init := parts[..|parts| - 1];
      var last := parts[|parts| - 1];
      assert forall k :: 0 <= k < |init| ==> init[k] == parts[k];
      CleanedClean(init);
      StripTrimmed(last);
      assert Cleaned(parts) == init + [last];
      assert init + [last] == parts;
    }
  }

  /** No entry of a comma list is empty, has outer whitespace or holds a comma. */
  lemma CleanListSpec(text: string)
    ensures forall k :: 0 <= k < |CleanList(text)| ==> IsTrimmed(CleanList(text)[k]) && ',' !in CleanList(text)[k]
  {
    var parts := Split(text, ',');
    var cl := Cleaned(parts);
    assert cl == CleanList(text);
    CleanedSpec(parts);
    forall k | 0 <= k < |cl| ensures ',' !in cl[k] {
      var j :| 0 <= j < |parts| && cl[k] == Strip(parts[j]);
      assert ',' !in parts[j];
      StripWithout(parts[j], ',');
    }
  }

  /** Stripping adds no character. */
  lemma StripWithout(s: string, c: char)
    requires c !in s
    ensures c !in Strip(s)
  {
    StripSpec(s);
    var i, j :| 0 <= i <= j <= |s| && Strip(s) == s[i..j];
    assert forall k :: 0 <= k < j - i ==> s[i..j][k] == s[i + k];
  }

  /** Writing clean entries as a comma list and reading it back gives them
      back; no entries give the empty text, which reads as no entries. */
  lemma CleanListJoin(items: seq<string>)
    requires forall k :: 0 <= k < |items| ==> IsTrimmed(items[k]) && ',' !in items[k]
    ensures CleanList(Join(items, ",")) == items
  {
    if items == [] {
      assert Split("", ',') == [""];
      assert Strip("") == "";
    } else {
      SplitJoin(items, ',');
      CleanedClean(items);
    }
  }

  // ------------------------------------------------------------------------
  // `add_menu_item`.

  /** The arguments `add_menu_item` passes to the database. */
  datatype NewMenuItem = NewMenuItem(
    name: string,
    category: string,
    subcategory: Option<string>,
    price: real,
    ingredients: Option<seq<string>>,
    allergens: Option<seq<string>>,
    calories: Option<int>,
    description: Option<string>)

  /** `x if x else None` for text ... */
  function TextOrNone(s: string): (r: Option<string>)
    ensures r.None? <==> s == ""
    ensures r.Some? ==> r.value == s
  {
    if s == "" then None else Some(s)
  }

  /** ... and for lists. */
  function ListOrNone(s: seq<string>): (r: Option<seq<string>>)
    ensures r.None? <==> s == []
    ensures r.Some? ==> r.value == s
  {
    if s == [] then None else Some(s)
  }

  /** `int(form.get('calories', 0)) if form.get('calories') else None`. */
  function CaloriesField(fields: Fields): Result<Option<int>> {
    var text := Get(fields, "calories", "");
    if text == "" then Ok(None)
    else match ParseInt(text)
      case Some(n) => Ok(Some(n))
      case None => Err(BadNumber(text))
  }

  /** The body of `add_menu_item` up to the database call. `parsePrice` is
      `float()`, which the model does not define. */
  function MenuItemForm(fields: Fields, parsePrice: string -> Option<real>): (r: Result<NewMenuItem>)
    ensures r.Ok? <==>
              && Lookup(fields, "name").Some? && Lookup(fields, "category").Some? && Lookup(fields, "price").Some?
              && parsePrice(Lookup(fields, "price").value).Some? && CaloriesField(fields).Ok?
    ensures r.Ok? ==>
              && r.value.name == Lookup(fields, "name").value
              && r.value.category == Lookup(fields, "category").value
              && r.value.subcategory == TextOrNone(Get(fields, "subcategory", ""))
              && r.value.price == parsePrice(Lookup(fields, "price").value).value
              && r.value.ingredients == ListOrNone(CleanList(Get(fields, "ingredients", "")))
              && r.value.allergens == ListOrNone(CleanList(Get(fields, "allergens", "")))
              && r.value.calories == CaloriesField(fields).value
              && r.value.description == TextOrNone(Get(fields, "description", ""))
    ensures r.Ok? && r.value.ingredients.Some? ==> CleanEntries(r.value.ingredients.value)
    ensures r.Ok? && r.value.allergens.Some? ==> CleanEntries(r.value.allergens.value)
    ensures Lookup(fields, "name").None? ==> r == Err(MissingField("name"))
    ensures Lookup(fields, "name").Some? && Lookup(fields, "category").None? ==> r == Err(MissingField("category"))
    ensures Lookup(fields, "name").Some? && Lookup(fields, "category").Some? && Lookup(fields, "price").None? ==>
              r == Err(MissingField("price"))
    ensures Lookup(fields, "name").Some? && Lookup(fields, "category").Some? && Lookup(fields, "price").Some? ==>
              && (parsePrice(Lookup(fields, "price").value).None? ==> r == Err(BadNumber(Lookup(fields, "price").value)))
              && (parsePrice(Lookup(fields, "price").value).Some? && CaloriesField(fields).Err? ==> r == Err(CaloriesField(fields).error))
  {
    match Lookup(fields, "name")
    case None => Err(MissingField("name"))
    case Some(name) =>
      match Lookup(fields, "category")
      case None => Err(MissingField("category"))
      case Some(category) =>
        match Lookup(fields, "price")
        case None => Err(MissingField("price"))
        case Some(priceText) =>
          match parsePrice(priceText)
          case None => Err(BadNumber(priceText))
          case Some(price) =>
            match CaloriesField(fields)
            case Err(e) => Err(e)
            case Ok(calories) =>
              var ingredients := CleanList(Get(fields, "ingredients", ""));
              CleanListSpec(Get(fields, "ingredients", ""));
              CleanListSpec(Get(fields, "allergens", ""));
              Ok(NewMenuItem(name, category, TextOrNone(Get(fields, "subcategory", "")), price,
                             ListOrNone(ingredients), ListOrNone(CleanList(Get(fields, "allergens", ""))),
                             calories, TextOrNone(Get(fields, "description", ""))))
  }

  /** Entries of a comma list: trimmed, non-empty and without a comma. */
  ghost predicate CleanEntries(items: seq<string>) {
    forall k :: 0 <= k < |items| ==> IsTrimmed(items[k]) && ',' !in items[k]
  }

  function OrEmpty(t: Option<string>): string {
    match t case Some(x) => x case None => ""
  }

  function Entries(l: Option<seq<string>>): seq<string> {
    match l case Some(x) => x case None => []
  }

  function CaloriesText(c: Option<int>): string {
    match c case Some(n) => IntToString(n) case None => ""
  }

  /** An item whose optional texts are absent rather than empty and whose
      lists are absent rather than empty and hold clean entries. */
  ghost predicate Submittable(item: NewMenuItem) {
    && item.subcategory != Some("") && item.description != Some("")
    && (item.ingredients.Some? ==> item.ingredients.value != [] && CleanEntries(item.ingredients.value))
    && (item.allergens.Some? ==> item.allergens.value != [] && CleanEntries(item.allergens.value))
  }

  /** A submitted form carrying `item`: its fields hold the item's texts, the
      price written as `priceText`, each list as its entries joined by
      commas, and the calories in decimal; an absent value is an empty or
      missing field. */
  ghost predicate Carries(fields: Fields, item: NewMenuItem, priceText: string) {
    && Lookup(fields, "name") == Some(item.name)
    && Lookup(fields, "category") == Some(item.category)
    && Lookup(fields, "price") == Some(priceText)
    && Get(fields, "subcategory", "") == OrEmpty(item.subcategory)
    && Get(fields, "description", "") == OrEmpty(item.description)
    && Get(fields, "ingredients", "") == Join(Entries(item.ingredients), ",")
    && Get(fields, "allergens", "") == Join(Entries(item.allergens), ",")
    && Get(fields, "calories", "") == CaloriesText(item.calories)
  }

  /** Reading back a form that carries the item gives back the item, when
      `float()` reads the price text as the item's price. */
  lemma MenuItemFormRoundTrip(fields: Fields, item: NewMenuItem, priceText: string, parsePrice: string -> Option<real>)
    requires Submittable(item) && Carries(fields, item, priceText)
    requires parsePrice(priceText) == Some(item.price)
    ensures MenuItemForm(fields, parsePrice) == Ok(item)
  {
    ListBack(item.ingredients);
    ListBack(item.allergens);
    CaloriesBack(fields, item.calories);
    var r := MenuItemForm(fields, parsePrice);
    assert r.Ok?;
    var m := r.value;
    assert m.subcategory == item.subcategory && m.description == item.description;
    assert m.ingredients == item.ingredients && m.allergens == item.allergens;
    assert m.calories == item.calories;
  }

  /** A list written with its entries joined by commas reads back as itself. */
  lemma ListBack(l: Option<seq<string>>)
    requires l.Some? ==> l.value != [] && CleanEntries(l.value)
    ensures ListOrNone(CleanList(Join(Entries(l), ","))) == l
  {
    CleanListJoin(Entries(l));
  }

  /** Calories written in decimal, or left empty, read back as themselves. */
  lemma CaloriesBack(fields: Fields, c: Option<int>)
    requires Get(fields, "calories", "") == CaloriesText(c)
    ensures CaloriesField(fields) == Ok(c)
  {
    if c.Some? {
      ParseIntToString(c.value);
    }
  }

  // ------------------------------------------------------------------------
  // `create_order`.

  const QuantityPrefix: string := "quantity_"

  /** `key.split('_')[1]` for a name starting `quantity_`: the text between
      the first and the second `_` (such a name always has that piece). */
  function IdText(key: string): (t: string)
    requires StartsWith(key, QuantityPrefix)
    ensures '_' !in t
  {
    assert key[8] == QuantityPrefix[8];
    Split(key, '_')[1]
  }

  /** `key.startswith('quantity_') and int(value) > 0`. */
  predicate Selected(field: (string, string)) {
    StartsWith(field.0, QuantityPrefix) && ParseInt(field.1).Some? && ParseInt(field.1).value > 0
  }

  /** What one form field contributes to the order: nothing unless its name
      starts with `quantity_` and its value is a positive integer; then the
      id `key.split('_')[1]`, if it is on the menu, with the menu's price. A
      value, or for a positive value an id, that is not an integer fails the
      whole order. */
  function FieldItem(field: (string, string), catalog: seq<MenuItem>): (r: Result<Option<NewOrderItem>>)
    ensures !StartsWith(field.0, QuantityPrefix) ==> r == Ok(None)
    ensures r.Ok? && r.value.Some? ==>
              var it := r.value.value;
              && StartsWith(field.0, QuantityPrefix)
              && ParseInt(field.1) == Some(it.quantity) && it.quantity > 0
              && ParseInt(IdText(field.0)) == Some(it.menuItemId)
              && FindItem(catalog, it.menuItemId).Some?
              && it.unitPrice == FindItem(catalog, it.menuItemId).value.price
              && it.customizations == map[]
    ensures Selected(field) && ParseInt(IdText(field.0)).Some? && FindItem(catalog, ParseInt(IdText(field.0)).value).Some? ==>
              var id := ParseInt(IdText(field.0)).value;
              r == Ok(Some(NewOrderItem(id, ParseInt(field.1).value, FindItem(catalog, id).value.price, map[])))
    ensures StartsWith(field.0, QuantityPrefix) && ParseInt(field.1).None? ==> r == Err(BadNumber(field.1))
    ensures Selected(field) && ParseInt(IdText(field.0)).None? ==> r == Err(BadNumber(IdText(field.0)))
    ensures r.Err? ==>
              || (StartsWith(field.0, QuantityPrefix) && ParseInt(field.1).None?)
              || (Selected(field) && ParseInt(IdText(field.0)).None?)
  {
    var (key, value) := field;
    if !StartsWith(key, QuantityPrefix) then Ok(None)
    else match ParseInt(value)
      case None => Err(BadNumber(value))
      case Some(quantity) =>
        if quantity <= 0 then Ok(None)
        else
          var idText := IdText(key);
          match ParseInt(idText)
          case None => Err(BadNumber(idText))
          case Some(id) =>
            match FindItem(catalog, id)
            case None => Ok(None)
            case Some(m) => Ok(Some(NewOrderItem(id, quantity, m.price, map[])))
  }

  /** The rendering of an integer has no `_`. */
  lemma NoUnderscore(n: int)
    ensures '_' !in IntToString(n)
  {
    var d := NatToString(if n < 0 then -n else n);
    assert forall k :: 0 <= k < |d| ==> IsDigit(d[k]);
    if n < 0 {
      assert IntToString(n) == "-" + d;
    }
  }

  /** The field the order form renders for a menu item and a quantity,
      `quantity_<id>` with value `<quantity>`, gives back that item at the
      menu's price when the quantity is positive and the id is on the menu,
      and nothing when it is not on the menu. */
  lemma QuantityFieldRoundTrip(id: int, quantity: int, catalog: seq<MenuItem>)
    requires quantity > 0
    ensures var r := FieldItem((QuantityPrefix + IntToString(id), IntToString(quantity)), catalog);
      match FindItem(catalog, id)
      case None => r == Ok(None)
      case Some(m) => r == Ok(Some(NewOrderItem(id, quantity, m.price, map[])))
  {
    var key := QuantityPrefix + IntToString(id);
    NoUnderscore(id);
    assert key == Join(["quantity", IntToString(id)], "_");
    SplitJoin(["quantity", IntToString(id)], '_');
    assert key[..|QuantityPrefix|] == QuantityPrefix;
    assert IdText(key) == IntToString(id);
    ParseIntToString(id);
    ParseIntToString(quantity);
  }

  /** The `items` list of `create_order`, or the first failure. */
  function OrderLines(fields: Fields, catalog: seq<MenuItem>): Result<seq<NewOrderItem>> {
    if fields == [] then Ok([])
    else match OrderLines(fields[..|fields| - 1], catalog)
      case Err(e) => Err(e)
      case Ok(items) =>
        match FieldItem(fields[|fields| - 1], catalog)
        case Err(e) => Err(e)
        case Ok(None) => Ok(items)
        case Ok(Some(it)) => Ok(items + [it])
  }

  /** An order that parses read every field without failure. */
  lemma {:induction false} OrderLinesOk(fields: Fields, catalog: seq<MenuItem>)
    requires OrderLines(fields, catalog).Ok?
    ensures forall j :: 0 <= j < |fields| ==> FieldItem(fields[j], catalog).Ok?
  {
    if fields != [] {
      var init := fields[..|fields| - 1];
      OrderLinesOk(init, catalog);
      forall j | 0 <= j < |fields| ensures FieldItem(fields[j], catalog).Ok? {
        if j < |fields| - 1 {
          assert fields[j] == init[j];
        }
      }
    }
  }

  /** Every item comes from a field: one with a `quantity_` name and a
      positive value (by `FieldItem`), whose id is on the menu at the menu's
      price. */
  lemma {:induction false} OrderLinesFrom(fields: Fields, catalog: seq<MenuItem>)
    requires OrderLines(fields, catalog).Ok?
    ensures |OrderLines(fields, catalog).value| <= |fields|
    ensures var items := OrderLines(fields, catalog).value;
      forall k :: 0 <= k < |items| ==> exists j :: 0 <= j < |fields| && FieldItem(fields[j], catalog) == Ok(Some(items[k]))
  {
    if fields != [] {
      var init := fields[..|fields| - 1];
      OrderLinesFrom(init, catalog);
      var before := OrderLines(init, catalog).value;
      var items := OrderLines(fields, catalog).value;
      assert items == before || items == before + [FieldItem(fields[|fields| - 1], catalog).value.value];
      forall k | 0 <= k < |items| ensures exists j :: 0 <= j < |fields| && FieldItem(fields[j], catalog) == Ok(Some(items[k])) {
        if k < |before| {
          var j :| 0 <= j < |init| && FieldItem(init[j], catalog) == Ok(Some(before[k]));
          assert fields[j] == init[j];
        } else {
          assert FieldItem(fields[|fields| - 1], catalog) == Ok(Some(items[k]));
        }
      }
    }
  }

  /** Every field that names a menu item with a positive quantity adds it. */
  lemma {:induction false} OrderLinesComplete(fields: Fields, catalog: seq<MenuItem>)
    requires OrderLines(fields, catalog).Ok?
    ensures forall j :: 0 <= j < |fields| && FieldItem(fields[j], catalog).Ok? && FieldItem(fields[j], catalog).value.Some? ==>
              FieldItem(fields[j], catalog).value.value in OrderLines(fields, catalog).value
  {
    if fields != [] {
      var init := fields[..|fields| - 1];
      OrderLinesComplete(init, catalog);
      var before := OrderLines(init, catalog).value;
      var items := OrderLines(fields, catalog).value;
      assert forall x :: x in before ==> x in items;
      forall j | 0 <= j < |fields| && FieldItem(fields[j], catalog).Ok? && FieldItem(fields[j], catalog).value.Some?
        ensures FieldItem(fields[j], catalog).value.value in items
      {
        if j < |fields| - 1 {
          assert fields[j] == init[j];
        }
      }
    }
  }

  /** The loop over `request.form.items()`. */
  method ParseOrderItems(fields: Fields, catalog: seq<MenuItem>) returns (r: Result<seq<NewOrderItem>>)
    ensures r == OrderLines(fields, catalog)
  {
    var items: seq<NewOrderItem> := [];
    for i := 0 to |fields|
      invariant OrderLines(fields[..i], catalog) == Ok(items)
    {
      assert fields[..i + 1][..i] == fields[..i];
      var one := FieldItem(fields[i], catalog);
      if one.Err? {
        OrderLinesErr(fields, i + 1, catalog);
        return Err(one.error);
      }
      if one.value.Some? {
        items := items + [one.value.value];
      }
    }
    assert fields[..|fields|] == fields;
    r := Ok(items);
  }

  /** A failure on a prefix is the failure of the whole form. */
  lemma {:induction false} OrderLinesErr(fields: Fields, i: nat, catalog: seq<MenuItem>)
    requires i <= |fields| && OrderLines(fields[..i], catalog).Err?
    ensures OrderLines(fields, catalog) == OrderLines(fields[..i], catalog)
    decreases |fields| - i
  {
    if i < |fields| {
      assert fields[..i + 1][..i] == fields[..i];
      OrderLinesErr(fields, i + 1, catalog);
    } else {
      assert fields[..i] == fields;
    }
  }

  /** What `create_order` does with a POST: an order for the customer, the
      "select at least one item" message, or the error message. */
  datatype OrderOutcome =
    | Created(customerId: int, items: seq<NewOrderItem>, notes: string, total: real)
    | NothingSelected
    | Failed(error: FormError)

  /** `int(request.form['customer_id'])`, `None` when the field is missing or
      not an integer. */
  function CustomerIdOf(fields: Fields): Option<int> {
    match Lookup(fields, "customer_id")
    case None => None
    case Some(t) => ParseInt(t)
  }

  /** `create_order` on a POST. The customer id must be present and an
      integer, then every field must parse; an order is created exactly when
      at least one item was selected, with the total `add_order` computes. */
  method CreateOrder(fields: Fields, catalog: seq<MenuItem>) returns (r: OrderOutcome)
    ensures Lookup(fields, "customer_id").None? ==> r == Failed(MissingField("customer_id"))
    ensures Lookup(fields, "customer_id").Some? && CustomerIdOf(fields).None? ==>
              r == Failed(BadNumber(Lookup(fields, "customer_id").value))
    ensures CustomerIdOf(fields).Some? && OrderLines(fields, catalog).Err? ==>
              r == Failed(OrderLines(fields, catalog).error)
    ensures r.Created? <==>
              CustomerIdOf(fields).Some? && OrderLines(fields, catalog).Ok? && OrderLines(fields, catalog).value != []
    ensures r.Created? ==>
              && CustomerIdOf(fields) == Some(r.customerId)
              && OrderLines(fields, catalog) == Ok(r.items)
              && r.notes == Get(fields, "notes", "")
              && r.total == OrderTotal(r.items)
    ensures r.NothingSelected? <==> CustomerIdOf(fields).Some? && OrderLines(fields, catalog) == Ok([])
  {
    var idText := Lookup(fields, "customer_id");
    if idText.None? {
      return Failed(MissingField("customer_id"));
    }
    var customerId := ParseInt(idText.value);
    if customerId.None? {
      return Failed(BadNumber(idText.value));
    }
    var notes := Get(fields, "notes", "");
    var items := ParseOrderItems(fields, catalog);
    if items.Err? {
      return Failed(items.error);
    }
    if items.value == [] {
      return NothingSelected;
    }
    r := Created(customerId.value, items.value, notes, OrderTotal(items.value));
  }

  // ------------------------------------------------------------------------
  // `customer_stats`.

  function OrderAmount(o: Order): real { o.totalAmount }

  function NameCount(c: Slot<string, int>): real { c.val as real }

  /** `most_ordered_items`: at most `n` item names, by summed quantity, each
      with its exact sum; no name left out has a larger sum. */
  ghost predicate TopNames(top: seq<Slot<string, int>>, lines: seq<OrderItem>, n: nat) {
    && |top| == Min(n, |FirstSeen(Keys(lines, LineName))|)
    && SortedDesc(top, NameCount)
    && Distinct(Keys(top, SlotKey))
    && (forall k :: 0 <= k < |top| ==>
          top[k].key in Keys(lines, LineName) && top[k].val == QuantityOf(lines, LineName, top[k].key))
    && (forall name :: name in Keys(lines, LineName) && name !in Keys(top, SlotKey) ==>
          forall k :: 0 <= k < |top| ==> top[k].val >= QuantityOf(lines, LineName, name))
  }

  /** The statistics returned as JSON. */
  datatype Stats = Stats(customer: Customer, totalOrders: nat, totalSpent: real, average: real,
                         mostOrdered: seq<Slot<string, int>>)

  /** The top `n` entries of a filled name counter. */
  lemma TopOfCounts(lines: seq<OrderItem>, counts: seq<Slot<string, int>>, n: nat)
    requires Keys(counts, SlotKey) == FirstSeen(Keys(lines, LineName))
    requires forall i :: 0 <= i < |counts| ==> counts[i].val == QuantityOf(lines, LineName, counts[i].key)
    ensures TopNames(Take(SortDesc(counts, NameCount), n), lines, n)
  {
    var sorted := SortDesc(counts, NameCount);
    var top := Take(sorted, n);
    FirstSeenSpec(Keys(lines, LineName));
    TopSpec(counts, NameCount, n);
    SortDescKeys(counts, NameCount, SlotKey);
    TakeKeys(sorted, n, SlotKey);
    TopCountsExact(lines, counts, n);
    TopCountsLeftOut(lines, counts, n);
  }

  lemma TopCountsExact(lines: seq<OrderItem>, counts: seq<Slot<string, int>>, n: nat)
    requires Keys(counts, SlotKey) == FirstSeen(Keys(lines, LineName))
    requires forall i :: 0 <= i < |counts| ==> counts[i].val == QuantityOf(lines, LineName, counts[i].key)
    ensures var top := Take(SortDesc(counts, NameCount), n);
      forall k :: 0 <= k < |top| ==>
        top[k].key in Keys(lines, LineName) && top[k].val == QuantityOf(lines, LineName, top[k].key)
  {
    var top := Take(SortDesc(counts, NameCount), n);
    FirstSeenSpec(Keys(lines, LineName));
    TopSpec(counts, NameCount, n);
    forall k | 0 <= k < |top|
      ensures top[k].key in Keys(lines, LineName) && top[k].val == QuantityOf(lines, LineName, top[k].key)
    {
      assert top[k] in multiset(counts);
      var i :| 0 <= i < |counts| && counts[i] == top[k];
      assert Keys(counts, SlotKey)[i] == counts[i].key;
    }
  }

  lemma TopCountsLeftOut(lines: seq<OrderItem>, counts: seq<Slot<string, int>>, n: nat)
    requires Keys(counts, SlotKey) == FirstSeen(Keys(lines, LineName))
    requires forall i :: 0 <= i < |counts| ==> counts[i].val == QuantityOf(lines, LineName, counts[i].key)
    ensures var top := Take(SortDesc(counts, NameCount), n);
      forall name :: name in Keys(lines, LineName) && name !in Keys(top, SlotKey) ==>
        forall k :: 0 <= k < |top| ==> top[k].val >= QuantityOf(lines, LineName, name)
  {
    var top := Take(SortDesc(counts, NameCount), n);
    FirstSeenSpec(Keys(lines, LineName));
    forall name | name in Keys(lines, LineName) && name !in Keys(top, SlotKey)
      ensures forall k :: 0 <= k < |top| ==> top[k].val >= QuantityOf(lines, LineName, name)
    {
      var i :| 0 <= i < |counts| && Keys(counts, SlotKey)[i] == name;
      TopLeftOut(counts, NameCount, SlotKey, n, counts[i]);
    }
  }

  /** `total_spent / total_orders if total_orders > 0 else 0`. */
  function Average(total: real, n: nat): (r: real)
    ensures n == 0 ==> r == 0.0
    ensures n > 0 ==> r * (n as real) == total
  {
    if n > 0 then total / (n as real) else 0.0
  }

  /** `customer_stats`: not found without a customer; otherwise the number
      of orders, the sum of their totals, the average (0 without orders) and
      the five most ordered item names. */
  method CustomerStats(customer: Option<Customer>, history: seq<Order>) returns (r: Result<Stats>)
    ensures customer.None? ==> r == Err(CustomerNotFound)
    ensures customer.Some? ==> r.Ok? && r.value.customer == customer.value
    ensures r.Ok? ==>
              && r.value.totalOrders == |history|
              && r.value.totalSpent == SumOf(history, OrderAmount)
              && r.value.average == Average(r.value.totalSpent, |history|)
              && TopNames(r.value.mostOrdered, Lines(history), 5)
    ensures r.Ok? ==> r.value.mostOrdered == Take(SortDesc(Tally(Lines(history), LineName), NameCount), 5)
  {
    if customer.None? {
      return Err(CustomerNotFound);
    }
    var totalOrders := |history|;
    var totalSpent := SumOf(history, OrderAmount);
    var average := Average(totalSpent, totalOrders);
    var counts := CountLines(history, LineName);
    var mostOrdered := Take(SortDesc(counts, NameCount), 5);
    TopOfCounts(Lines(history), counts, 5);
    r := Ok(Stats(customer.value, totalOrders, totalSpent, average, mostOrdered));
  }

  // ------------------------------------------------------------------------
  // `orders`.

  /** An order with the `customer_name` the page adds to it. */
  datatype Listed = Listed(order: Order, customerName: string)

  function ListedDate(l: Listed): real { l.order.orderDate as real }

  const PageCustomers: nat := 20
  const PageOrders: nat := 50

  /** The orders of `customers`, customer by customer, each with the
      customer's name. `historyOf(id)` is `get_customer_order_history(id, limit=5)`. */
  function Gathered(customers: seq<Customer>, historyOf: int -> seq<Order>): seq<Listed> {
    if customers == [] then []
    else
      var c := customers[|customers| - 1];
      Gathered(customers[..|customers| - 1], historyOf) + Named(historyOf(c.id), c.name)
  }

  function Named(orders: seq<Order>, name: string): (r: seq<Listed>)
    ensures |r| == |orders| && forall k :: 0 <= k < |orders| ==> r[k] == Listed(orders[k], name)
  {
    if orders == [] then [] else Named(orders[..|orders| - 1], name) + [Listed(orders[|orders| - 1], name)]
  }

  /** Each gathered order is an order of one of the customers, under that
      customer's name. */
  lemma {:induction false} GatheredSpec(customers: seq<Customer>, historyOf: int -> seq<Order>)
    ensures forall k :: 0 <= k < |Gathered(customers, historyOf)| ==>
              exists c :: c in customers && Gathered(customers, historyOf)[k].order in historyOf(c.id) &&
                          Gathered(customers, historyOf)[k].customerName == c.name
  {
    if customers != [] {
      var init := customers[..|customers| - 1];
      var c := customers[|customers| - 1];
      GatheredSpec(init, historyOf);
      var g := Gathered(init, historyOf);
      var all := Gathered(customers, historyOf);
      forall k | 0 <= k < |all| ensures exists d :: d in customers && all[k].order in historyOf(d.id) && all[k].customerName == d.name {
        if k < |g| {
          assert all[k] == g[k];
          var d :| d in init && g[k].order in historyOf(d.id) && g[k].customerName == d.name;
          assert d in customers;
        } else {
          assert all[k] == Listed(historyOf(c.id)[k - |g|], c.name);
          assert c in customers && all[k].order in historyOf(c.id);
        }
      }
    } else {
      assert Gathered(customers, historyOf) == [];
    }
  }

  /** The nested loop that builds `recent_orders`. */
  method GatherOrders(customers: seq<Customer>, historyOf: int -> seq<Order>) returns (recent: seq<Listed>)
    ensures recent == Gathered(customers, historyOf)
  {
    recent := [];
    for i := 0 to |customers|
      invariant recent == Gathered(customers[..i], historyOf)
    {
      var c := customers[i];
      var orders := historyOf(c.id);
      ghost var before := recent;
      for j := 0 to |orders|
        invariant recent == before + Named(orders[..j], c.name)
      {
        assert orders[..j + 1][..j] == orders[..j];
        recent := recent + [Listed(orders[j], c.name)];
      }
      assert orders[..|orders|] == orders;
      assert customers[..i + 1][..i] == customers[..i];
    }
    assert customers[..|customers|] == customers;
  }

  /** The `orders` page: the orders of the first 20 customers, newest first,
      at most 50; every order shown is one of theirs under their name, and
      an order left out is no newer than any shown. */
  method OrdersPage(customers: seq<Customer>, historyOf: int -> seq<Order>) returns (shown: seq<Listed>)
    ensures |shown| == Min(PageOrders, |Gathered(Take(customers, PageCustomers), historyOf)|)
    ensures SortedDesc(shown, ListedDate)
    ensures multiset(shown) <= multiset(Gathered(Take(customers, PageCustomers), historyOf))
    ensures forall k :: 0 <= k < |shown| ==>
              exists c :: c in Take(customers, PageCustomers) && shown[k].order in historyOf(c.id) && shown[k].customerName == c.name
    ensures forall l :: l in Gathered(Take(customers, PageCustomers), historyOf) && l !in shown ==>
              |shown| == PageOrders && forall k :: 0 <= k < |shown| ==> ListedDate(shown[k]) >= ListedDate(l)
    ensures shown == Take(SortDesc(Gathered(Take(customers, PageCustomers), historyOf), ListedDate), PageOrders)
  {
    var first := Take(customers, PageCustomers);
    var recent := GatherOrders(first, historyOf);
    shown := Take(SortDesc(recent, ListedDate), PageOrders);
    TopSpec(recent, ListedDate, PageOrders);
    ShownFrom(first, historyOf, shown);
    forall l | l in recent && l !in shown
      ensures |shown| == PageOrders && forall k :: 0 <= k < |shown| ==> ListedDate(shown[k]) >= ListedDate(l)
    {
      TopExcluded(recent, ListedDate, PageOrders, l);
    }
  }

  /** Anything drawn from the gathered orders belongs to one of the customers. */
  lemma ShownFrom(customers: seq<Customer>, historyOf: int -> seq<Order>, shown: seq<Listed>)
    requires multiset(shown) <= multiset(Gathered(customers, historyOf))
    ensures forall k :: 0 <= k < |shown| ==>
              exists c :: c in customers && shown[k].order in historyOf(c.id) && shown[k].customerName == c.name
  {
    var all := Gathered(customers, historyOf);
    GatheredSpec(customers, historyOf);
    forall k | 0 <= k < |shown|
      ensures exists c :: c in customers && shown[k].order in historyOf(c.id) && shown[k].customerName == c.name
    {
      assert shown[k] in multiset(shown);
      assert shown[k] in multiset(all);
      var j :| 0 <= j < |all| && all[j] == shown[k];
    }
  }
}
