/** The quantity counter that walks every line of every order:
        for order in history:
            for item in order['items']:
                counts[key(item)] += item['quantity']
    The recommendation scorers key it by menu item id, the customer statistics
    by item name. */
module Counter {
  import opened Seqs
  import opened CafeData
  import opened Dicts

  /** The lines of all orders, order by order. */
  function Lines(orders: seq<Order>): seq<OrderItem> {
    if orders == [] then [] else Lines(orders[..|orders| - 1]) + orders[|orders| - 1].items
  }

  lemma LinesSnoc(orders: seq<Order>, i: nat)
    requires i < |orders|
    ensures Lines(orders[..i + 1]) == Lines(orders[..i]) + orders[i].items
  {
    assert orders[..i + 1][..i] == orders[..i];
  }

  /** The quantity ordered under key `k`: the sum of `quantity` over the lines
      whose key is `k`. */
  function QuantityOf<K(==)>(lines: seq<OrderItem>, key: OrderItem -> K, k: K): int {
    if lines == [] then 0
    else
      var it := lines[|lines| - 1];
      QuantityOf(lines[..|lines| - 1], key, k) + (if key(it) == k then it.quantity else 0)
  }

  lemma {:induction false} QuantityAbsent<K>(lines: seq<OrderItem>, key: OrderItem -> K, k: K)
    requires k !in Keys(lines, key)
    ensures QuantityOf(lines, key, k) == 0
  {
    if lines != [] {
      assert Keys(lines, key)[|lines| - 1] == key(lines[|lines| - 1]);
      QuantityAbsent(lines[..|lines| - 1], key, k);
    }
  }

  /** The quantity of the lines of `a + b` is that of `a` plus that of `b`. */
  lemma {:induction false} QuantityAppend<K>(a: seq<OrderItem>, b: seq<OrderItem>, key: OrderItem -> K, k: K)
    ensures QuantityOf(a + b, key, k) == QuantityOf(a, key, k) + QuantityOf(b, key, k)
  {
    if b == [] {
      assert a + b == a;
    } else {
      QuantityAppend(a, b[..|b| - 1], key, k);
      assert (a + b)[..|a + b| - 1] == a + b[..|b| - 1];
    }
  }

  /** A `Counter` entry starts at zero ... */
  function NoCount(it: OrderItem): int { 0 }

  /** ... and each line adds its quantity. */
  function AddQuantity(n: int, it: OrderItem): int { n + it.quantity }

  /** The counter's walk leaves the quantity sum under each key it saw. */
  lemma {:induction false} AccQuantity<K>(lines: seq<OrderItem>, key: OrderItem -> K, k: K)
    requires k in Keys(lines, key)
    ensures Acc(lines, key, k, NoCount, AddQuantity) == Some(QuantityOf(lines, key, k))
  {
    var init := lines[..|lines| - 1];
    var it := lines[|lines| - 1];
    assert Keys(lines, key) == Keys(init, key) + [key(it)];
    if k in Keys(init, key) {
      AccQuantity(init, key, k);
    } else {
      AccSome(init, key, k, NoCount, AddQuantity);
      QuantityAbsent(init, key, k);
    }
  }

  /** A filled counter holds, under each key it has, that key's quantity sum. */
  lemma CountsHoldQuantities<K>(lines: seq<OrderItem>, key: OrderItem -> K, counts: seq<Slot<K, int>>)
    requires Filled(lines, key, NoCount, AddQuantity, counts)
    ensures forall i :: 0 <= i < |counts| ==> counts[i].val == QuantityOf(lines, key, counts[i].key)
  {
    FilledDistinct(lines, key, NoCount, AddQuantity, counts);
    forall i | 0 <= i < |counts| ensures counts[i].val == QuantityOf(lines, key, counts[i].key) {
      assert Keys(counts, SlotKey)[i] == counts[i].key;
      AccQuantity(lines, key, counts[i].key);
    }
  }

  /** The counter's content as a reference definition: one entry per distinct
      key of the lines, in first-occurrence order, holding that key's summed
      quantity. */
  function Tally<K(==)>(lines: seq<OrderItem>, key: OrderItem -> K): (r: seq<Slot<K, int>>)
    ensures Keys(r, SlotKey) == FirstSeen(Keys(lines, key))
    ensures forall i :: 0 <= i < |r| ==> r[i].val == QuantityOf(lines, key, r[i].key)
  {
    var ks := FirstSeen(Keys(lines, key));
    seq(|ks|, i requires 0 <= i < |ks| => Slot(ks[i], QuantityOf(lines, key, ks[i])))
  }

  /** Two counters with the same keys in the same order and the quantity sum
      under each key are the same counter. */
  lemma SameTally<K>(lines: seq<OrderItem>, key: OrderItem -> K, counts: seq<Slot<K, int>>)
    requires Keys(counts, SlotKey) == FirstSeen(Keys(lines, key))
    requires forall i :: 0 <= i < |counts| ==> counts[i].val == QuantityOf(lines, key, counts[i].key)
    ensures counts == Tally(lines, key)
  {
    var t := Tally(lines, key);
    forall i | 0 <= i < |counts| ensures counts[i] == t[i] {
      assert Keys(counts, SlotKey)[i] == Keys(t, SlotKey)[i];
    }
  }

  /** The inner loop, over the lines of one order. */
  method CountItems<K(==)>(counts: seq<Slot<K, int>>, items: seq<OrderItem>, key: OrderItem -> K, ghost before: seq<OrderItem>)
    returns (counts': seq<Slot<K, int>>)
    requires Filled(before, key, NoCount, AddQuantity, counts)
    ensures Filled(before + items, key, NoCount, AddQuantity, counts')
  {
    counts' := counts;
    ghost var seen := before;
    for j := 0 to |items|
      invariant seen == before + items[..j]
      invariant Filled(seen, key, NoCount, AddQuantity, counts')
    {
      counts' := Put(counts', items[j], key, NoCount, AddQuantity, seen);
      PrefixSnoc(items, j);
      ConcatSnoc(before, items[..j], items[j]);
      seen := seen + [items[j]];
    }
    assert items[..|items|] == items;
  }

  /** The nested counting loop. One entry per distinct key of the lines, in
      first-occurrence order (a `Counter` is a dict), holding the summed
      quantity of that key's lines. */
  method CountLines<K(==)>(orders: seq<Order>, key: OrderItem -> K) returns (counts: seq<Slot<K, int>>)
    ensures Keys(counts, SlotKey) == FirstSeen(Keys(Lines(orders), key))
    ensures forall i :: 0 <= i < |counts| ==> counts[i].val == QuantityOf(Lines(orders), key, counts[i].key)
    ensures counts == Tally(Lines(orders), key)
  {
    counts := [];
    for i := 0 to |orders|
      invariant Filled(Lines(orders[..i]), key, NoCount, AddQuantity, counts)
    {
      counts := CountItems(counts, orders[i].items, key, Lines(orders[..i]));
      LinesSnoc(orders, i);
    }
    assert orders[..|orders|] == orders;
    CountsHoldQuantities(Lines(orders), key, counts);
    SameTally(Lines(orders), key, counts);
  }
}
