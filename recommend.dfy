/** `RecommendationEngine` of `recommendation_engine.py`: three scorers over a
    customer's order history (how often, how recently, and how similar to what
    was bought), a popularity list for new customers, the weighted combiner and
    the category-based complementary items. The database reads are inputs:
    `history` is `get_customer_order_history(customer_id)`, `catalog` is
    `get_menu_items()`. */
module Recommend {
  import opened Seqs
  import opened Text
  import opened CafeData
  import opened Dicts
  import opened Counter

  /** `config.MIN_ORDERS_FOR_RECOMMENDATION`. */
  const MinOrdersForRecommendation: nat := 3
  /** `config.RECOMMENDATION_WEIGHT_FREQUENCY`, `_SIMILARITY`, `_RECENCY`. */
  const WeightFrequency: real := 0.4
  const WeightSimilarity: real := 0.3
  const WeightRecency: real := 0.3
  /** `timedelta(days=30)`, in seconds. */
  const RecentWindow: int := 30 * 24 * 60 * 60

  const FrequencyLead: string := "You've ordered this "
  const RecencyLead: string := "Recently ordered "
  const SimilarReason: string := "Similar to items you've enjoyed"
  const PopularReason: string := "Popular choice among customers"
  const ComplementReason: string := "Great combination with your selection"

  /** `recommendation_type`. */
  datatype Kind = Frequency | Similarity | Recency | Popular | Complementary

  /** One scorer's suggestion: `{'item', 'score', 'reason', 'recommendation_type'}`. */
  datatype Rec = Rec(item: MenuItem, score: real, reason: string, kind: Kind)

  function RecId(r: Rec): int { r.item.id }

  function RecScore(r: Rec): real { r.score }

  // ------------------------------------------------------------------------
  // Frequency and recency: `Counter.most_common(limit)` looked up in the menu.

  function CountScore(c: Slot<int, int>): real { c.val as real }

  /** `f"You've ordered this {count} times"` and `f"Recently ordered {count} times"`. */
  function CountReason(lead: string, n: int): string { lead + IntToString(n) + " times" }

  /** `r` is the suggestion made for counter entry `c`. */
  ghost predicate FromCount(r: Rec, c: Slot<int, int>, catalog: seq<MenuItem>, kind: Kind, lead: string) {
    r.item in catalog && r.item.id == c.key && r.score == c.val as real &&
    r.reason == CountReason(lead, c.val) && r.kind == kind
  }

  /** The suggestions made for the counter entries `top`, in order: one per
      entry whose id is on the menu. */
  function Lookups(top: seq<Slot<int, int>>, catalog: seq<MenuItem>, kind: Kind, lead: string): seq<Rec>
  {
    if top == [] then []
    else
      var r := Lookups(top[..|top| - 1], catalog, kind, lead);
      var c := top[|top| - 1];
      match FindItem(catalog, c.key)
      case None => r
      case Some(m) => r + [Rec(m, c.val as real, CountReason(lead, c.val), kind)]
  }

  /** Each suggestion comes from an entry, at most one per entry ... */
  lemma {:induction false} LookupsFrom(top: seq<Slot<int, int>>, catalog: seq<MenuItem>, kind: Kind, lead: string)
    ensures var l := Lookups(top, catalog, kind, lead);
      |l| <= |top| && forall k :: 0 <= k < |l| ==> exists p :: 0 <= p < |top| && FromCount(l[k], top[p], catalog, kind, lead)
  {
    if top != [] {
      var init := top[..|top| - 1];
      LookupsFrom(init, catalog, kind, lead);
      var l := Lookups(top, catalog, kind, lead);
      var li := Lookups(init, catalog, kind, lead);
      forall k | 0 <= k < |l| ensures exists p :: 0 <= p < |top| && FromCount(l[k], top[p], catalog, kind, lead) {
        if k < |li| {
          assert l[k] == li[k];
          var p :| 0 <= p < |init| && FromCount(li[k], init[p], catalog, kind, lead);
          assert top[p] == init[p];
        } else {
          assert FromCount(l[k], top[|top| - 1], catalog, kind, lead);
        }
      }
    }
  }

  /** ... and every entry on the menu gets one. */
  lemma {:induction false} LookupsComplete(top: seq<Slot<int, int>>, catalog: seq<MenuItem>, kind: Kind, lead: string)
    ensures forall p :: 0 <= p < |top| && FindItem(catalog, top[p].key).Some? ==>
              top[p].key in Keys(Lookups(top, catalog, kind, lead), RecId)
  {
    if top != [] {
      var init := top[..|top| - 1];
      LookupsComplete(init, catalog, kind, lead);
      var c := top[|top| - 1];
      var l := Lookups(top, catalog, kind, lead);
      var li := Lookups(init, catalog, kind, lead);
      match FindItem(catalog, c.key) {
        case None =>
          assert l == li;
        case Some(m) =>
          var x := Rec(m, c.val as real, CountReason(lead, c.val), kind);
          assert l == li + [x];
          KeysSnoc(li, x, RecId);
      }
      forall p | 0 <= p < |top| && FindItem(catalog, top[p].key).Some?
        ensures top[p].key in Keys(l, RecId)
      {
        if p < |init| {
          assert init[p] == top[p];
        }
      }
    }
  }

  /** Entries in descending count give suggestions in descending score. */
  lemma {:induction false} LookupsSorted(top: seq<Slot<int, int>>, catalog: seq<MenuItem>, kind: Kind, lead: string)
    requires SortedDesc(top, CountScore)
    ensures SortedDesc(Lookups(top, catalog, kind, lead), RecScore)
  {
    if top != [] {
      var init := top[..|top| - 1];
      var c := top[|top| - 1];
      assert SortedDesc(init, CountScore);
      LookupsSorted(init, catalog, kind, lead);
      LookupsFrom(init, catalog, kind, lead);
      var l := Lookups(top, catalog, kind, lead);
      var li := Lookups(init, catalog, kind, lead);
      if l != li {
        assert l == li + [l[|l| - 1]];
        assert l[|l| - 1].score == c.val as real;
        forall i, j | 0 <= i < j < |l| ensures l[i].score >= l[j].score {
          assert l[i] == li[i];
          if j < |li| {
            assert l[j] == li[j];
          } else {
            var p :| 0 <= p < |init| && FromCount(li[i], init[p], catalog, kind, lead);
            assert top[p] == init[p];
          }
        }
      }
    }
  }

  /** Entries with distinct ids give suggestions with distinct ids. */
  lemma {:induction false} LookupsDistinct(top: seq<Slot<int, int>>, catalog: seq<MenuItem>, kind: Kind, lead: string)
    requires Distinct(Keys(top, SlotKey))
    ensures Distinct(Keys(Lookups(top, catalog, kind, lead), RecId))
  {
    if top != [] {
      var init := top[..|top| - 1];
      var c := top[|top| - 1];
      assert forall k :: 0 <= k < |init| ==> Keys(init, SlotKey)[k] == Keys(top, SlotKey)[k];
      LookupsDistinct(init, catalog, kind, lead);
      LookupsFrom(init, catalog, kind, lead);
      var l := Lookups(top, catalog, kind, lead);
      var li := Lookups(init, catalog, kind, lead);
      if l != li {
        assert l == li + [l[|l| - 1]];
        assert l[|l| - 1].item.id == c.key;
        forall i, j | 0 <= i < j < |l| ensures Keys(l, RecId)[i] != Keys(l, RecId)[j] {
          assert l[i] == li[i];
          if j < |li| {
            assert l[j] == li[j];
            assert Keys(li, RecId)[i] != Keys(li, RecId)[j];
          } else {
            var p :| 0 <= p < |init| && FromCount(li[i], init[p], catalog, kind, lead);
            assert Keys(top, SlotKey)[p] != Keys(top, SlotKey)[|top| - 1];
          }
        }
      }
    }
  }

  /** Each ranked suggestion comes from a counter entry. */
  lemma RankedFrom(counts: seq<Slot<int, int>>, catalog: seq<MenuItem>, limit: nat, kind: Kind, lead: string)
    ensures var recs := Lookups(Take(SortDesc(counts, CountScore), limit), catalog, kind, lead);
      && |recs| <= limit && |recs| <= |counts|
      && forall k :: 0 <= k < |recs| ==> exists i :: 0 <= i < |counts| && FromCount(recs[k], counts[i], catalog, kind, lead)
  {
    var top := Take(SortDesc(counts, CountScore), limit);
    var recs := Lookups(top, catalog, kind, lead);
    SortDescSpec(counts, CountScore);
    LookupsFrom(top, catalog, kind, lead);
    forall k | 0 <= k < |recs| ensures exists i :: 0 <= i < |counts| && FromCount(recs[k], counts[i], catalog, kind, lead) {
      var p :| 0 <= p < |top| && FromCount(recs[k], top[p], catalog, kind, lead);
      assert top[p] in multiset(counts);
      var i :| 0 <= i < |counts| && counts[i] == top[p];
    }
  }

  /** Every suggestion scores at least `x`. */
  ghost predicate ScoresAtLeast(recs: seq<Rec>, x: real) {
    forall k :: 0 <= k < |recs| ==> recs[k].score >= x
  }

  /** No counter entry on the menu that the ranking left out counts more
      than a suggestion. */
  lemma RankedLeftOut(counts: seq<Slot<int, int>>, catalog: seq<MenuItem>, limit: nat, kind: Kind, lead: string)
    ensures var recs := Lookups(Take(SortDesc(counts, CountScore), limit), catalog, kind, lead);
      forall i :: 0 <= i < |counts| && FindItem(catalog, counts[i].key).Some? && counts[i].key !in Keys(recs, RecId) ==>
        forall k :: 0 <= k < |recs| ==> recs[k].score >= counts[i].val as real
  {
    var recs := Lookups(Take(SortDesc(counts, CountScore), limit), catalog, kind, lead);
    forall i | 0 <= i < |counts| && FindItem(catalog, counts[i].key).Some? && counts[i].key !in Keys(recs, RecId)
      ensures ScoresAtLeast(recs, counts[i].val as real)
    {
      RankedLeftOutOne(counts, catalog, limit, kind, lead, i);
    }
  }


  lemma RankedLeftOutOne(counts: seq<Slot<int, int>>, catalog: seq<MenuItem>, limit: nat, kind: Kind, lead: string, i: nat)
    requires i < |counts| && FindItem(catalog, counts[i].key).Some?
    requires counts[i].key !in Keys(Lookups(Take(SortDesc(counts, CountScore), limit), catalog, kind, lead), RecId)
    ensures var recs := Lookups(Take(SortDesc(counts, CountScore), limit), catalog, kind, lead);
      forall k :: 0 <= k < |recs| ==> recs[k].score >= counts[i].val as real
    ensures var top := Take(SortDesc(counts, CountScore), limit);
      && |top| == limit
      && forall q :: 0 <= q < |top| ==> top[q].key != counts[i].key && top[q].val >= counts[i].val
  {
    var top := Take(SortDesc(counts, CountScore), limit);
    var recs := Lookups(top, catalog, kind, lead);
    LookupsComplete(top, catalog, kind, lead);
    forall q | 0 <= q < |top| && FindItem(catalog, top[q].key).Some? ensures top[q].key != counts[i].key {
      assert top[q].key in Keys(recs, RecId);
    }
    assert forall q :: 0 <= q < |top| ==> top[q].key != counts[i].key;
    assert counts[i] !in top;
    TopExcluded(counts, CountScore, limit, counts[i]);
    LookupsFrom(top, catalog, kind, lead);
    forall k | 0 <= k < |recs| ensures recs[k].score >= counts[i].val as real {
      var p :| 0 <= p < |top| && FromCount(recs[k], top[p], catalog, kind, lead);
      assert CountScore(top[p]) >= CountScore(counts[i]);
    }
  }

  /** What `most_common(limit)` followed by the menu lookup promises: at most
      `limit` suggestions, all from counter entries on the menu, in
      descending count with distinct ids, and no entry on the menu that was
      left out counts more than a suggestion. */
  lemma RankedSpec(counts: seq<Slot<int, int>>, catalog: seq<MenuItem>, limit: nat, kind: Kind, lead: string)
    requires Distinct(Keys(counts, SlotKey))
    ensures var recs := Lookups(Take(SortDesc(counts, CountScore), limit), catalog, kind, lead);
      && |recs| <= limit && |recs| <= |counts|
      && SortedDesc(recs, RecScore)
      && Distinct(Keys(recs, RecId))
      && (forall k :: 0 <= k < |recs| ==> exists i :: 0 <= i < |counts| && FromCount(recs[k], counts[i], catalog, kind, lead))
      && (forall i :: 0 <= i < |counts| && FindItem(catalog, counts[i].key).Some? && counts[i].key !in Keys(recs, RecId) ==>
            forall k :: 0 <= k < |recs| ==> recs[k].score >= counts[i].val as real)
  {
    var sorted := SortDesc(counts, CountScore);
    var top := Take(sorted, limit);
    SortDescSpec(counts, CountScore);
    TopSpec(counts, CountScore, limit);
    SortDescKeys(counts, CountScore, SlotKey);
    TakeKeys(sorted, limit, SlotKey);
    LookupsSorted(top, catalog, kind, lead);
    LookupsDistinct(top, catalog, kind, lead);
    RankedFrom(counts, catalog, limit, kind, lead);
    RankedLeftOut(counts, catalog, limit, kind, lead);
  }

  /** `most_common(limit)` and the lookup loop over it. */
  method RankCounts(counts: seq<Slot<int, int>>, catalog: seq<MenuItem>, limit: nat, kind: Kind, lead: string)
    returns (recs: seq<Rec>)
    requires Distinct(Keys(counts, SlotKey))
    ensures recs == Lookups(Take(SortDesc(counts, CountScore), limit), catalog, kind, lead)
  {
    var top := Take(SortDesc(counts, CountScore), limit);
    recs := [];
    for i := 0 to |top|
      invariant recs == Lookups(top[..i], catalog, kind, lead)
    {
      var c := top[i];
      assert top[..i + 1][..i] == top[..i];
      var found := FindItem(catalog, c.key);
      if found.Some? {
        recs := recs + [Rec(found.value, c.val as real, CountReason(lead, c.val), kind)];
      }
    }
    assert top[..|top|] == top;
  }

  /** `Counter(...).most_common(limit)` of the item ids on the lines, looked up
      in the menu. */
  function MostCommon(lines: seq<OrderItem>, catalog: seq<MenuItem>, limit: nat, kind: Kind, lead: string): seq<Rec> {
    Lookups(Take(SortDesc(Tally(lines, LineItemId), CountScore), limit), catalog, kind, lead)
  }

  /** `limit` other ordered ids were each ordered at least as often as `id`. */
  ghost predicate Outranked(lines: seq<OrderItem>, id: int, limit: nat) {
    exists ids: seq<int> :: |ids| == limit && OutrankedBy(lines, id, ids)
  }

  /** The distinct ordered ids `ids`, `id` not among them, were each ordered
      at least as often as `id`. */
  ghost predicate OutrankedBy(lines: seq<OrderItem>, id: int, ids: seq<int>) {
    && Distinct(ids) && id !in ids
    && forall k :: 0 <= k < |ids| ==>
         ids[k] in Keys(lines, LineItemId) &&
         QuantityOf(lines, LineItemId, ids[k]) >= QuantityOf(lines, LineItemId, id)
  }

  /** What the frequency and recency scorers promise about the lines they
      count: the lookups of `Counter(...).most_common(limit)`; hence at most
      `limit` suggestions and no more than distinct ids, in descending score,
      distinct ids, each a menu item that was ordered, scored with its exact
      summed quantity; an ordered item on the menu is left out only when
      `limit` other ordered items were ordered at least as often, and it has
      no higher quantity than a suggestion. */
  ghost predicate CountRanked(recs: seq<Rec>, lines: seq<OrderItem>, catalog: seq<MenuItem>, limit: nat, kind: Kind, lead: string) {
    && recs == MostCommon(lines, catalog, limit, kind, lead)
    && CountShaped(recs, lines, catalog, limit, kind, lead)
    && CountCovers(recs, lines, catalog, limit)
  }

  /** At most `limit` suggestions and no more than distinct ids, in
      descending score, distinct ids, each a menu item that was ordered,
      scored with its exact summed quantity. */
  ghost predicate CountShaped(recs: seq<Rec>, lines: seq<OrderItem>, catalog: seq<MenuItem>, limit: nat, kind: Kind, lead: string) {
    && |recs| <= limit
    && |recs| <= |FirstSeen(Keys(lines, LineItemId))|
    && SortedDesc(recs, RecScore)
    && Distinct(Keys(recs, RecId))
    && (forall k :: 0 <= k < |recs| ==>
          var n := QuantityOf(lines, LineItemId, recs[k].item.id);
          && recs[k].item in catalog && recs[k].item.id in Keys(lines, LineItemId)
          && recs[k].score == n as real && recs[k].reason == CountReason(lead, n) && recs[k].kind == kind)
  }

  /** An ordered item on the menu is left out only when `limit` other
      ordered items were ordered at least as often, and it has no higher
      quantity than a suggestion. */
  ghost predicate CountCovers(recs: seq<Rec>, lines: seq<OrderItem>, catalog: seq<MenuItem>, limit: nat) {
    && (forall id :: id in Keys(lines, LineItemId) && FindItem(catalog, id).Some? && id !in Keys(recs, RecId) ==>
          Outranked(lines, id, limit))
    && (forall id :: id in Keys(lines, LineItemId) && FindItem(catalog, id).Some? && id !in Keys(recs, RecId) ==>
          forall k :: 0 <= k < |recs| ==> recs[k].score >= QuantityOf(lines, LineItemId, id) as real)
  }

  /** The ranked lookups of the reference tally have every property the
      scorers promise. */
  lemma TallyRanked(lines: seq<OrderItem>, catalog: seq<MenuItem>, limit: nat, kind: Kind, lead: string)
    ensures CountRanked(MostCommon(lines, catalog, limit, kind, lead),
                        lines, catalog, limit, kind, lead)
  {
    TallyShaped(lines, catalog, limit, kind, lead);
    TallyCovers(lines, catalog, limit, kind, lead);
  }

  /** The ranked lookups of the tally are bounded, sorted, distinct and
      scored with exact quantities. */
  lemma TallyShaped(lines: seq<OrderItem>, catalog: seq<MenuItem>, limit: nat, kind: Kind, lead: string)
    ensures CountShaped(MostCommon(lines, catalog, limit, kind, lead), lines, catalog, limit, kind, lead)
  {
    var counts := Tally(lines, LineItemId);
    var recs := Lookups(Take(SortDesc(counts, CountScore), limit), catalog, kind, lead);
    FirstSeenSpec(Keys(lines, LineItemId));
    RankedSpec(counts, catalog, limit, kind, lead);
    forall k | 0 <= k < |recs| ensures recs[k].item.id in Keys(lines, LineItemId) &&
        recs[k].score == QuantityOf(lines, LineItemId, recs[k].item.id) as real &&
        recs[k].reason == CountReason(lead, QuantityOf(lines, LineItemId, recs[k].item.id))
    {
      var i :| 0 <= i < |counts| && FromCount(recs[k], counts[i], catalog, kind, lead);
      assert Keys(counts, SlotKey)[i] == counts[i].key;
    }
  }

  /** An ordered item on the menu left out of the ranked lookups of the
      tally is outranked and scores no more than any suggestion. */
  lemma TallyCovers(lines: seq<OrderItem>, catalog: seq<MenuItem>, limit: nat, kind: Kind, lead: string)
    ensures CountCovers(MostCommon(lines, catalog, limit, kind, lead), lines, catalog, limit)
  {
    var counts := Tally(lines, LineItemId);
    var recs := Lookups(Take(SortDesc(counts, CountScore), limit), catalog, kind, lead);
    forall id | id in Keys(lines, LineItemId) && FindItem(catalog, id).Some? && id !in Keys(recs, RecId)
      ensures Outranked(lines, id, limit)
      ensures forall k :: 0 <= k < |recs| ==> recs[k].score >= QuantityOf(lines, LineItemId, id) as real
    {
      FirstSeenSpec(Keys(lines, LineItemId));
      assert id in Keys(counts, SlotKey);
      var i :| 0 <= i < |counts| && Keys(counts, SlotKey)[i] == id;
      assert counts[i].key == id;
      TallyOutranked(lines, catalog, limit, kind, lead, i);
    }
  }

  /** The fullness half for one left-out entry of the tally: the keys of the
      top `limit` entries witness `Outranked`. */
  lemma TallyOutranked(lines: seq<OrderItem>, catalog: seq<MenuItem>, limit: nat, kind: Kind, lead: string, i: nat)
    requires var counts := Tally(lines, LineItemId);
      && i < |counts| && FindItem(catalog, counts[i].key).Some?
      && counts[i].key !in Keys(Lookups(Take(SortDesc(counts, CountScore), limit), catalog, kind, lead), RecId)
    ensures Outranked(lines, Tally(lines, LineItemId)[i].key, limit)
    ensures var recs := MostCommon(lines, catalog, limit, kind, lead);
      forall k :: 0 <= k < |recs| ==> recs[k].score >= QuantityOf(lines, LineItemId, Tally(lines, LineItemId)[i].key) as real
  {
    var counts := Tally(lines, LineItemId);
    var ids := Keys(Take(SortDesc(counts, CountScore), limit), SlotKey);
    RankedLeftOutOne(counts, catalog, limit, kind, lead, i);
    TopOutranks(lines, limit, counts, Take(SortDesc(counts, CountScore), limit), i);
    assert |ids| == limit && OutrankedBy(lines, counts[i].key, ids);
  }

  /** When the top `limit` entries of the tally all count at least as much
      as entry `i` and none is it, their keys witness `Outranked` for it. */
  lemma TopOutranks(lines: seq<OrderItem>, limit: nat, counts: seq<Slot<int, int>>, top: seq<Slot<int, int>>, i: nat)
    requires counts == Tally(lines, LineItemId) && i < |counts|
    requires top == Take(SortDesc(counts, CountScore), limit)
    requires forall q :: 0 <= q < |top| ==> top[q].key != counts[i].key && top[q].val >= counts[i].val
    ensures OutrankedBy(lines, counts[i].key, Keys(top, SlotKey))
  {
    var sorted := SortDesc(counts, CountScore);
    var ids := Keys(top, SlotKey);
    FirstSeenSpec(Keys(lines, LineItemId));
    SortDescKeys(counts, CountScore, SlotKey);
    TakeKeys(sorted, limit, SlotKey);
    TopFrom(counts, CountScore, limit);
    forall k | 0 <= k < |ids|
      ensures ids[k] != counts[i].key && ids[k] in Keys(lines, LineItemId)
      ensures QuantityOf(lines, LineItemId, ids[k]) >= QuantityOf(lines, LineItemId, counts[i].key)
    {
      assert ids[k] == top[k].key && top[k].val >= counts[i].val;
      var j :| 0 <= j < |counts| && counts[j] == top[k];
      assert Keys(counts, SlotKey)[j] == ids[k];
      assert counts[j].val == QuantityOf(lines, LineItemId, ids[k]);
    }
  }

  /** Counting and ranking `orders`, shared by the frequency and recency scorers. */
  method CountScorer(orders: seq<Order>, catalog: seq<MenuItem>, limit: nat, kind: Kind, lead: string)
    returns (recs: seq<Rec>)
    ensures CountRanked(recs, Lines(orders), catalog, limit, kind, lead)
  {
    var counts := CountLines(orders, LineItemId);
    FirstSeenSpec(Keys(Lines(orders), LineItemId));
    recs := RankCounts(counts, catalog, limit, kind, lead);
    TallyRanked(Lines(orders), catalog, limit, kind, lead);
  }

  /** `_get_frequency_based_recommendations`: every line of every order counts. */
  method FrequencyRecommendations(history: seq<Order>, catalog: seq<MenuItem>, limit: nat)
    returns (recs: seq<Rec>)
    ensures CountRanked(recs, Lines(history), catalog, limit, Frequency, FrequencyLead)
  {
    recs := CountScorer(history, catalog, limit, Frequency, FrequencyLead);
  }

  /** The orders placed strictly after `now` minus 30 days, in order. */
  function RecentOrders(history: seq<Order>, now: int): (r: seq<Order>)
    ensures forall k :: 0 <= k < |r| ==> r[k] in history && r[k].orderDate > now - RecentWindow
    ensures forall k :: 0 <= k < |history| && history[k].orderDate > now - RecentWindow ==> history[k] in r
  {
    Filter(history, (o: Order) => o.orderDate > now - RecentWindow)
  }

  /** An order placed at or before the cutoff, the cutoff itself included,
      leaves the recent orders as they were; a later one is added to them. */
  lemma RecentSnoc(history: seq<Order>, o: Order, now: int)
    ensures o.orderDate <= now - RecentWindow ==> RecentOrders(history + [o], now) == RecentOrders(history, now)
    ensures o.orderDate > now - RecentWindow ==> RecentOrders(history + [o], now) == RecentOrders(history, now) + [o]
  {
    assert (history + [o])[..|history|] == history;
  }

  /** `_get_recency_based_recommendations`: only lines of recent orders count. */
  method RecencyRecommendations(history: seq<Order>, catalog: seq<MenuItem>, now: int, limit: nat)
    returns (recs: seq<Rec>)
    ensures CountRanked(recs, Lines(RecentOrders(history, now)), catalog, limit, Recency, RecencyLead)
  {
    var recent := RecentOrders(history, now);
    recs := CountScorer(recent, catalog, limit, Recency, RecencyLead);
  }

  // ------------------------------------------------------------------------
  // De-duplication with a cap.

  /** The de-duplication loop as `_get_similarity_based_recommendations` and
      `get_complementary_items` write it: the first entry of each key not in
      `exclude` is kept, and the walk stops once `len(kept) >= limit`. That
      test comes after the append, so at least one entry is kept even when
      `limit` is 0. */
  method DedupAsWritten<T>(s: seq<T>, key: T -> int, exclude: set<int>, limit: nat) returns (r: seq<T>)
    ensures r == FirstUnique(s, key, exclude, Max(1, limit))
  {
    var cap := Max(1, limit);
    r := [];
    var seen: set<int> := {};
    var i := 0;
    while i < |s|
      invariant 0 <= i <= |s|
      invariant r == FirstUnique(s[..i], key, exclude, cap)
      invariant seen == KeySet(r, key)
      invariant |r| < cap
    {
      var x := s[i];
      FirstUniqueSeen(s, i, key, exclude, cap, r, seen);
      if key(x) !in seen && key(x) !in exclude {
        seen := seen + {key(x)};
        r := r + [x];
        if |r| >= limit {
          FirstUniqueFull(s, i + 1, key, exclude, cap);
          return;
        }
      }
      i := i + 1;
    }
    assert s[..|s|] == s;
  }

  /** The same loop with the `limit` test made before the append, so it keeps
      at most `limit` entries. */
  method Dedup<T>(s: seq<T>, key: T -> int, exclude: set<int>, limit: nat) returns (r: seq<T>)
    ensures r == FirstUnique(s, key, exclude, limit)
  {
    r := [];
    var seen: set<int> := {};
    var i := 0;
    while i < |s| && |r| < limit
      invariant 0 <= i <= |s|
      invariant r == FirstUnique(s[..i], key, exclude, limit)
      invariant seen == KeySet(r, key)
    {
      var x := s[i];
      FirstUniqueSeen(s, i, key, exclude, limit, r, seen);
      if key(x) !in seen && key(x) !in exclude {
        seen := seen + {key(x)};
        r := r + [x];
      }
      i := i + 1;
    }
    if i < |s| {
      FirstUniqueFull(s, i, key, exclude, limit);
    } else {
      assert s[..|s|] == s;
    }
  }

  // ------------------------------------------------------------------------
  // Similarity. The TF-IDF cosine similarity of the items at catalog
  // positions `i` and `j` is the abstract `sim(i, j)`.

  /** The catalog positions `0 .. n - 1`. */
  function Positions(n: nat): (r: seq<nat>)
    ensures |r| == n && forall k :: 0 <= k < n ==> r[k] == k
  {
    if n == 0 then [] else Positions(n - 1) + [n - 1]
  }

  /** Similarity to the item at position `i`, as a sort key over positions. */
  function SimilarityTo(sim: (nat, nat) -> real, i: nat): nat -> real {
    (j: nat) => sim(i, j)
  }

  /** `similarities.argsort()[-limit-1:-1][::-1]` over `n` positions: the
      positions in descending similarity to `i` with the first one (the best
      match, normally the item itself) dropped, at most `limit` of them. */
  function Neighbours(n: nat, i: nat, limit: nat, sim: (nat, nat) -> real): seq<nat>
    requires n >= 1
  {
    SortDesc(Positions(n), SimilarityTo(sim, i))[1..Min(n, limit + 1)]
  }

  /** There are `min(n - 1, limit)` neighbours, all valid positions, in
      descending similarity. */
  lemma NeighboursSpec(n: nat, i: nat, limit: nat, sim: (nat, nat) -> real)
    requires n >= 1
    ensures var r := Neighbours(n, i, limit, sim);
      && |r| == Min(n - 1, limit)
      && (forall k :: 0 <= k < |r| ==> r[k] < n)
      && SortedDesc(r, SimilarityTo(sim, i))
  {
    var p := Positions(n);
    var key := SimilarityTo(sim, i);
    var d := SortDesc(p, key);
    SortDescSpec(p, key);
    SortedSlice<nat>(d, key, 1, Min(n, limit + 1));
    forall k | 0 <= k < |d| ensures d[k] < n {
      assert d[k] in multiset(p);
    }
  }

  /** `item['id'] == id`, the test `item_ids.index(id)` searches with. */
  function ItemIs(id: int): MenuItem -> bool {
    (m: MenuItem) => m.id == id
  }

  /** The suggestions the inner loop makes for the neighbour positions `js` of
      the item at position `i`, in order: one per neighbour not ordered
      before, scored with its similarity to `i`. */
  function Suggest(catalog: seq<MenuItem>, i: nat, owned: set<int>, sim: (nat, nat) -> real, js: seq<nat>): seq<Rec>
    requires forall k :: 0 <= k < |js| ==> js[k] < |catalog|
  {
    if js == [] then []
    else
      var r := Suggest(catalog, i, owned, sim, js[..|js| - 1]);
      var j := js[|js| - 1];
      if catalog[j].id in owned then r else r + [Rec(catalog[j], sim(i, j), SimilarReason, Similarity)]
  }

  /** `x` is the suggestion for neighbour position `j` of `i`: an item not
      ordered before, scored with its similarity to `i`. */
  ghost predicate SuggestionAt(x: Rec, catalog: seq<MenuItem>, i: nat, owned: set<int>, sim: (nat, nat) -> real, j: nat) {
    j < |catalog| && catalog[j].id !in owned && x == Rec(catalog[j], sim(i, j), SimilarReason, Similarity)
  }

  /** Each suggestion is an unowned neighbour with its similarity ... */
  lemma {:induction false} SuggestFrom(catalog: seq<MenuItem>, i: nat, owned: set<int>, sim: (nat, nat) -> real, js: seq<nat>)
    requires forall k :: 0 <= k < |js| ==> js[k] < |catalog|
    ensures var r := Suggest(catalog, i, owned, sim, js);
      && |r| <= |js|
      && forall k :: 0 <= k < |r| ==> exists t :: 0 <= t < |js| && SuggestionAt(r[k], catalog, i, owned, sim, js[t])
  {
    if js != [] {
      var init := js[..|js| - 1];
      SuggestFrom(catalog, i, owned, sim, init);
      var r := Suggest(catalog, i, owned, sim, js);
      var ri := Suggest(catalog, i, owned, sim, init);
      forall k | 0 <= k < |r| ensures exists t :: 0 <= t < |js| && SuggestionAt(r[k], catalog, i, owned, sim, js[t]) {
        if k < |ri| {
          assert r[k] == ri[k];
          var t :| 0 <= t < |init| && SuggestionAt(ri[k], catalog, i, owned, sim, init[t]);
          assert js[t] == init[t];
        } else {
          assert SuggestionAt(r[k], catalog, i, owned, sim, js[|js| - 1]);
        }
      }
    }
  }

  /** ... every unowned neighbour gets one ... */
  lemma {:induction false} SuggestComplete(catalog: seq<MenuItem>, i: nat, owned: set<int>, sim: (nat, nat) -> real, js: seq<nat>)
    requires forall k :: 0 <= k < |js| ==> js[k] < |catalog|
    ensures forall t :: 0 <= t < |js| && catalog[js[t]].id !in owned ==>
              Rec(catalog[js[t]], sim(i, js[t]), SimilarReason, Similarity) in Suggest(catalog, i, owned, sim, js)
  {
    if js != [] {
      var init := js[..|js| - 1];
      SuggestComplete(catalog, i, owned, sim, init);
      var r := Suggest(catalog, i, owned, sim, js);
      var ri := Suggest(catalog, i, owned, sim, init);
      assert forall x :: x in ri ==> x in r;
      forall t | 0 <= t < |init| ensures js[t] == init[t] {
      }
    }
  }

  /** ... and neighbours in descending similarity give suggestions in
      descending score. */
  lemma {:induction false} SuggestSorted(catalog: seq<MenuItem>, i: nat, owned: set<int>, sim: (nat, nat) -> real, js: seq<nat>)
    requires forall k :: 0 <= k < |js| ==> js[k] < |catalog|
    requires SortedDesc(js, SimilarityTo(sim, i))
    ensures SortedDesc(Suggest(catalog, i, owned, sim, js), RecScore)
  {
    if js != [] {
      var init := js[..|js| - 1];
      var j := js[|js| - 1];
      assert SortedDesc(init, SimilarityTo(sim, i));
      SuggestSorted(catalog, i, owned, sim, init);
      SuggestFrom(catalog, i, owned, sim, init);
      var r := Suggest(catalog, i, owned, sim, js);
      var ri := Suggest(catalog, i, owned, sim, init);
      if catalog[j].id !in owned {
        assert r == ri + [Rec(catalog[j], sim(i, j), SimilarReason, Similarity)];
        forall a, b | 0 <= a < b < |r| ensures r[a].score >= r[b].score {
          assert r[a] == ri[a];
          if b < |ri| {
            assert r[b] == ri[b];
          } else {
            var t :| 0 <= t < |init| && SuggestionAt(ri[a], catalog, i, owned, sim, init[t]);
            assert js[t] == init[t];
            assert SimilarityTo(sim, i)(js[t]) >= SimilarityTo(sim, i)(j);
          }
        }
      }
    }
  }

  /** The suggestions the inner loop makes for the ordered item at position
      `i`: its neighbours that were not ordered before, in order. */
  function NeighbourRecs(catalog: seq<MenuItem>, i: nat, owned: set<int>, limit: nat, sim: (nat, nat) -> real): seq<Rec>
    requires i < |catalog|
  {
    NeighboursSpec(|catalog|, i, limit, sim);
    Suggest(catalog, i, owned, sim, Neighbours(|catalog|, i, limit, sim))
  }

  /** At most `limit` suggestions, in descending similarity; each is an unowned
      neighbour of `i` with its similarity, and every unowned neighbour is
      there. */
  lemma NeighbourRecsSpec(catalog: seq<MenuItem>, i: nat, owned: set<int>, limit: nat, sim: (nat, nat) -> real)
    requires i < |catalog|
    ensures var r := NeighbourRecs(catalog, i, owned, limit, sim);
      var ns := Neighbours(|catalog|, i, limit, sim);
      && |r| <= limit
      && SortedDesc(r, RecScore)
      && (forall t :: 0 <= t < |ns| ==> ns[t] < |catalog|)
      && (forall k :: 0 <= k < |r| ==> exists t :: 0 <= t < |ns| && SuggestionAt(r[k], catalog, i, owned, sim, ns[t]))
      && (forall t :: 0 <= t < |ns| && catalog[ns[t]].id !in owned ==>
            Rec(catalog[ns[t]], sim(i, ns[t]), SimilarReason, Similarity) in r)
  {
    var ns := Neighbours(|catalog|, i, limit, sim);
    NeighboursSpec(|catalog|, i, limit, sim);
    SuggestFrom(catalog, i, owned, sim, ns);
    SuggestComplete(catalog, i, owned, sim, ns);
    SuggestSorted(catalog, i, owned, sim, ns);
  }

  /** The suggestions for ordered item `id`: those of its first position on
      the menu, none when it is not on the menu. */
  function SimilarFor(catalog: seq<MenuItem>, id: int, owned: set<int>, limit: nat, sim: (nat, nat) -> real): seq<Rec> {
    match FirstIndex(catalog, ItemIs(id))
    case None => []
    case Some(p) => NeighbourRecs(catalog, p, owned, limit, sim)
  }

  /** The candidate list the loop over the ordered items builds when it visits
      them in the order `visit`. */
  function Pool(visit: seq<int>, catalog: seq<MenuItem>, owned: set<int>, limit: nat, sim: (nat, nat) -> real): seq<Rec> {
    if visit == [] then []
    else Pool(visit[..|visit| - 1], catalog, owned, limit, sim) + SimilarFor(catalog, visit[|visit| - 1], owned, limit, sim)
  }

  /** `c` is a suggestion made for some ordered item, whatever the order the
      ordered items are visited in. */
  ghost predicate Candidate(c: Rec, catalog: seq<MenuItem>, owned: set<int>, limit: nat, sim: (nat, nat) -> real) {
    exists id :: id in owned && c in SimilarFor(catalog, id, owned, limit, sim)
  }

  /** The candidate list holds the suggestions for the visited ids. */
  lemma {:induction false} PoolHas(visit: seq<int>, catalog: seq<MenuItem>, owned: set<int>, limit: nat, sim: (nat, nat) -> real)
    ensures forall c :: c in Pool(visit, catalog, owned, limit, sim) <==>
              exists k :: 0 <= k < |visit| && c in SimilarFor(catalog, visit[k], owned, limit, sim)
  {
    if visit != [] {
      var init := visit[..|visit| - 1];
      PoolHas(init, catalog, owned, limit, sim);
      forall k | 0 <= k < |init| ensures visit[k] == init[k] {
      }
    }
  }

  /** Visiting every ordered item, in any order, yields the candidates. */
  lemma PoolCandidates(visit: seq<int>, catalog: seq<MenuItem>, owned: set<int>, limit: nat, sim: (nat, nat) -> real)
    requires forall id :: id in visit <==> id in owned
    ensures forall c :: c in Pool(visit, catalog, owned, limit, sim) <==> Candidate(c, catalog, owned, limit, sim)
  {
    PoolHas(visit, catalog, owned, limit, sim);
    forall c ensures c in Pool(visit, catalog, owned, limit, sim) ==> Candidate(c, catalog, owned, limit, sim) {
      if c in Pool(visit, catalog, owned, limit, sim) {
        var k :| 0 <= k < |visit| && c in SimilarFor(catalog, visit[k], owned, limit, sim);
        assert visit[k] in owned;
      }
    }
    forall c | Candidate(c, catalog, owned, limit, sim) ensures c in Pool(visit, catalog, owned, limit, sim) {
      var id :| id in owned && c in SimilarFor(catalog, id, owned, limit, sim);
      var k :| 0 <= k < |visit| && visit[k] == id;
    }
  }

  /** A candidate is a similarity suggestion, and there are none when `limit`
      is 0. */
  lemma CandidatePick(c: Rec, catalog: seq<MenuItem>, owned: set<int>, limit: nat, sim: (nat, nat) -> real)
    requires Candidate(c, catalog, owned, limit, sim)
    ensures SimilarPick(c, catalog, owned, sim) && limit >= 1
  {
    var id :| id in owned && c in SimilarFor(catalog, id, owned, limit, sim);
    var p := FirstIndex(catalog, ItemIs(id)).value;
    NeighbourRecsSpec(catalog, p, owned, limit, sim);
    var ns := Neighbours(|catalog|, p, limit, sim);
    var r := NeighbourRecs(catalog, p, owned, limit, sim);
    var k :| 0 <= k < |r| && r[k] == c;
    var t :| 0 <= t < |ns| && SuggestionAt(r[k], catalog, p, owned, sim, ns[t]);
    assert catalog[p].id == id;
  }

  /** The ids of the items on the lines. */
  function OwnedIds(lines: seq<OrderItem>): set<int> {
    if lines == [] then {}
    else OwnedIds(lines[..|lines| - 1]) + {lines[|lines| - 1].menuItemId}
  }

  /** An id is owned exactly when some line carries it. */
  lemma {:induction false} OwnedIdsSpec(lines: seq<OrderItem>)
    ensures forall id :: id in OwnedIds(lines) <==> id in Keys(lines, LineItemId)
  {
    if lines != [] {
      OwnedIdsSpec(lines[..|lines| - 1]);
      assert Keys(lines, LineItemId) == Keys(lines[..|lines| - 1], LineItemId) + [lines[|lines| - 1].menuItemId];
    }
  }

  lemma OwnedIdsSnoc(lines: seq<OrderItem>, it: OrderItem)
    ensures OwnedIds(lines + [it]) == OwnedIds(lines) + {it.menuItemId}
  {
    assert (lines + [it])[..|lines|] == lines;
  }

  /** The inner loop over the lines of one order. */
  method AddOrderedItems(owned: set<int>, items: seq<OrderItem>, ghost before: seq<OrderItem>)
    returns (owned': set<int>)
    requires owned == OwnedIds(before)
    ensures owned' == OwnedIds(before + items)
  {
    owned' := owned;
    ghost var seen := before;
    for j := 0 to |items|
      invariant seen == before + items[..j]
      invariant owned' == OwnedIds(seen)
    {
      OwnedIdsSnoc(seen, items[j]);
      owned' := owned' + {items[j].menuItemId};
      seen := seen + [items[j]];
      assert items[..j + 1] == items[..j] + [items[j]];
    }
    assert items[..|items|] == items;
  }

  /** The `ordered_items` loop: the set of item ids the customer ordered. */
  method OrderedItems(history: seq<Order>) returns (owned: set<int>)
    ensures owned == OwnedIds(Lines(history))
  {
    owned := {};
    for i := 0 to |history|
      invariant owned == OwnedIds(Lines(history[..i]))
    {
      owned := AddOrderedItems(owned, history[i].items, Lines(history[..i]));
      LinesSnoc(history, i);
    }
    assert history[..|history|] == history;
  }

  /** `r` is a similarity suggestion: a menu item not ordered before, scored
      with its similarity to an item that was. */
  ghost predicate SimilarPick(r: Rec, catalog: seq<MenuItem>, owned: set<int>, sim: (nat, nat) -> real) {
    && r.kind == Similarity && r.reason == SimilarReason && r.item.id !in owned
    && exists i, j :: 0 <= i < |catalog| && 0 <= j < |catalog| &&
         catalog[i].id in owned && r.item == catalog[j] && r.score == sim(i, j)
  }

  /** The inner loop over the neighbours of the ordered item at position `i`:
      the ones not ordered before, with their similarity. */
  method SimilarTo(catalog: seq<MenuItem>, i: nat, owned: set<int>, limit: nat, sim: (nat, nat) -> real)
    returns (more: seq<Rec>)
    requires i < |catalog| && catalog[i].id in owned
    ensures more == NeighbourRecs(catalog, i, owned, limit, sim)
    ensures |more| <= limit
    ensures forall k :: 0 <= k < |more| ==> SimilarPick(more[k], catalog, owned, sim)
  {
    var similar := Neighbours(|catalog|, i, limit, sim);
    NeighboursSpec(|catalog|, i, limit, sim);
    more := [];
    for t := 0 to |similar|
      invariant more == Suggest(catalog, i, owned, sim, similar[..t])
    {
      var j := similar[t];
      assert similar[..t + 1][..t] == similar[..t];
      if catalog[j].id !in owned {
        more := more + [Rec(catalog[j], sim(i, j), SimilarReason, Similarity)];
      }
    }
    assert similar[..|similar|] == similar;
    NeighbourRecsSpec(catalog, i, owned, limit, sim);
    forall k | 0 <= k < |more| ensures SimilarPick(more[k], catalog, owned, sim) {
      var t :| 0 <= t < |similar| && SuggestionAt(more[k], catalog, i, owned, sim, similar[t]);
    }
  }

  /** Some element of a non-empty set, the next one a `for` loop over a
      Python set visits. */
  method Pick<T(==)>(s: set<T>) returns (x: T)
    requires s != {}
    ensures x in s
  {
    HasElement(s);
    x :| x in s;
  }

  lemma HasElement<T>(s: set<T>)
    requires s != {}
    ensures exists x :: x in s
  {
    if forall x :: x !in s {
      assert false;
    }
  }

  /** The loop over the ordered items: for each one on the menu, its
      neighbours not ordered before. The set is visited in some order
      `visit`, each ordered item once; whatever that order, the list holds
      exactly the candidates. None at all when `limit` is 0. */
  method SimilarCandidates(owned: set<int>, catalog: seq<MenuItem>, limit: nat, sim: (nat, nat) -> real)
    returns (cands: seq<Rec>)
    ensures exists visit :: Visits(visit, owned) && cands == Pool(visit, catalog, owned, limit, sim)
    ensures forall c :: c in cands <==> Candidate(c, catalog, owned, limit, sim)
    ensures limit == 0 ==> cands == []
    ensures forall k :: 0 <= k < |cands| ==> SimilarPick(cands[k], catalog, owned, sim)
  {
    cands := [];
    var rest := owned;
    ghost var visit: seq<int> := [];
    while rest != {}
      invariant rest <= owned
      invariant Distinct(visit)
      invariant forall id :: id in visit <==> id in owned && id !in rest
      invariant cands == Pool(visit, catalog, owned, limit, sim)
      invariant limit == 0 ==> cands == []
      invariant forall k :: 0 <= k < |cands| ==> SimilarPick(cands[k], catalog, owned, sim)
      decreases |rest|
    {
      var id := Pick(rest);
      rest := rest - {id};
      DistinctSnoc(visit, id);
      assert (visit + [id])[..|visit|] == visit;
      var pos := FirstIndex(catalog, ItemIs(id));
      if pos.Some? {
        var more := SimilarTo(catalog, pos.value, owned, limit, sim);
        cands := cands + more;
      }
      visit := visit + [id];
    }
    assert Visits(visit, owned);
    PoolCandidates(visit, catalog, owned, limit, sim);
  }

  /** `visit` lists every id of `owned` once. */
  ghost predicate Visits(visit: seq<int>, owned: set<int>) {
    Distinct(visit) && forall id :: id in visit <==> id in owned
  }

  /** De-duplicating the candidates sorted by score: every candidate's item
      is kept unless the list is full, the entry kept for an item is its
      best candidate, and a candidate whose item was left out scores no
      higher than any kept entry. */
  lemma DedupRanked(pool: seq<Rec>, cap: nat)
    ensures var recs := FirstUnique(SortDesc(pool, RecScore), RecId, {}, cap);
      && (forall c :: c in pool ==> c.item.id in Keys(recs, RecId) || |recs| == cap)
      && (forall c, k :: c in pool && 0 <= k < |recs| && c.item.id == recs[k].item.id ==> recs[k].score >= c.score)
      && (forall c :: c in pool && c.item.id !in Keys(recs, RecId) ==> ScoresAtLeast(recs, c.score))
  {
    var ranked := SortDesc(pool, RecScore);
    SortDescSpec(pool, RecScore);
    FirstUniqueComplete(ranked, RecId, {}, cap);
    FirstUniqueKeepsBest(ranked, RecId, {}, cap, RecScore);
    forall c | c in pool ensures exists i :: 0 <= i < |ranked| && ranked[i] == c {
      assert c in multiset(ranked);
    }
    DedupLeftOut(pool, cap);
  }

  /** A candidate whose item the de-duplication left out scores no higher
      than any kept entry. */
  lemma DedupLeftOut(pool: seq<Rec>, cap: nat)
    ensures var recs := FirstUnique(SortDesc(pool, RecScore), RecId, {}, cap);
      forall c :: c in pool && c.item.id !in Keys(recs, RecId) ==> ScoresAtLeast(recs, c.score)
  {
    var ranked := SortDesc(pool, RecScore);
    var recs := FirstUnique(ranked, RecId, {}, cap);
    SortDescSpec(pool, RecScore);
    forall c | c in pool && c.item.id !in Keys(recs, RecId)
      ensures ScoresAtLeast(recs, c.score)
    {
      assert c in multiset(ranked);
      var i :| 0 <= i < |ranked| && ranked[i] == c;
      FirstUniqueLeftOut(ranked, RecId, {}, cap, RecScore, i);
    }
  }

  /** What the similarity scorer promises. Nothing when the customer has
      ordered nothing; otherwise the first `limit` distinct items of the
      candidates sorted by score (the ordered items visited in some order);
      hence at most `limit` suggestions with distinct ids, in descending
      similarity, each a candidate and none an item already ordered; every
      candidate's item is there unless `limit` suggestions are, with the best
      score among its candidates; a candidate left out scores no higher than
      any suggestion. */
  ghost predicate SimilarRanked(recs: seq<Rec>, history: seq<Order>, catalog: seq<MenuItem>, limit: nat, sim: (nat, nat) -> real) {
    var owned := OwnedIds(Lines(history));
    && (owned == {} ==> recs == [])
    && (exists visit :: Visits(visit, owned) &&
          recs == FirstUnique(SortDesc(Pool(visit, catalog, owned, limit, sim), RecScore), RecId, {}, Max(1, limit)))
    && SimilarShaped(recs, catalog, owned, limit, sim)
    && SimilarCovers(recs, catalog, owned, limit, sim)
  }

  /** At most `limit` suggestions with distinct ids, in descending
      similarity, each a candidate of an ordered item. */
  ghost predicate SimilarShaped(recs: seq<Rec>, catalog: seq<MenuItem>, owned: set<int>, limit: nat, sim: (nat, nat) -> real) {
    && |recs| <= limit
    && SortedDesc(recs, RecScore)
    && Distinct(Keys(recs, RecId))
    && (forall k :: 0 <= k < |recs| ==> SimilarPick(recs[k], catalog, owned, sim))
    && (forall k :: 0 <= k < |recs| ==> Candidate(recs[k], catalog, owned, limit, sim))
  }

  /** Every candidate's item is suggested unless `limit` suggestions are,
      with a score no lower than the candidate's; a candidate left out scores
      no higher than any suggestion. */
  ghost predicate SimilarCovers(recs: seq<Rec>, catalog: seq<MenuItem>, owned: set<int>, limit: nat, sim: (nat, nat) -> real) {
    && (forall c :: Candidate(c, catalog, owned, limit, sim) ==> c.item.id in Keys(recs, RecId) || |recs| == limit)
    && (forall c, k :: Candidate(c, catalog, owned, limit, sim) && 0 <= k < |recs| && c.item.id == recs[k].item.id ==>
          recs[k].score >= c.score)
    && (forall c :: Candidate(c, catalog, owned, limit, sim) && c.item.id !in Keys(recs, RecId) ==>
          forall k :: 0 <= k < |recs| ==> recs[k].score >= c.score)
  }

  /** The first `limit` distinct items of the sorted candidates, for any order
      of visiting the ordered items, have every property the similarity
      scorer promises. */
  lemma PoolRanked(history: seq<Order>, catalog: seq<MenuItem>, limit: nat, sim: (nat, nat) -> real, visit: seq<int>)
    requires Visits(visit, OwnedIds(Lines(history)))
    requires OwnedIds(Lines(history)) != {}
    ensures SimilarRanked(FirstUnique(SortDesc(Pool(visit, catalog, OwnedIds(Lines(history)), limit, sim), RecScore), RecId, {}, Max(1, limit)),
                          history, catalog, limit, sim)
  {
    var owned := OwnedIds(Lines(history));
    var recs := FirstUnique(SortDesc(Pool(visit, catalog, owned, limit, sim), RecScore), RecId, {}, Max(1, limit));
    PoolShaped(visit, catalog, owned, limit, sim);
    PoolCovers(visit, catalog, owned, limit, sim);
    assert Visits(visit, owned) && recs == FirstUnique(SortDesc(Pool(visit, catalog, owned, limit, sim), RecScore), RecId, {}, Max(1, limit));
  }

  /** The de-duplicated pool is bounded, sorted and distinct, and made of
      candidates. */
  lemma PoolShaped(visit: seq<int>, catalog: seq<MenuItem>, owned: set<int>, limit: nat, sim: (nat, nat) -> real)
    requires Visits(visit, owned)
    ensures SimilarShaped(FirstUnique(SortDesc(Pool(visit, catalog, owned, limit, sim), RecScore), RecId, {}, Max(1, limit)),
                          catalog, owned, limit, sim)
  {
    var pool := Pool(visit, catalog, owned, limit, sim);
    var cap := Max(1, limit);
    var ranked := SortDesc(pool, RecScore);
    var recs := FirstUnique(ranked, RecId, {}, cap);
    PoolCandidates(visit, catalog, owned, limit, sim);
    SortDescSpec(pool, RecScore);
    FirstUniqueSound(ranked, RecId, {}, cap);
    FirstUniqueSorted(ranked, RecId, {}, cap, RecScore);
    forall k | 0 <= k < |recs|
      ensures Candidate(recs[k], catalog, owned, limit, sim) && SimilarPick(recs[k], catalog, owned, sim) && limit >= 1
    {
      assert recs[k] in multiset(pool);
      CandidatePick(recs[k], catalog, owned, limit, sim);
    }
  }

  /** The de-duplicated pool covers every candidate. */
  lemma PoolCovers(visit: seq<int>, catalog: seq<MenuItem>, owned: set<int>, limit: nat, sim: (nat, nat) -> real)
    requires Visits(visit, owned)
    ensures SimilarCovers(FirstUnique(SortDesc(Pool(visit, catalog, owned, limit, sim), RecScore), RecId, {}, Max(1, limit)),
                          catalog, owned, limit, sim)
  {
    var pool := Pool(visit, catalog, owned, limit, sim);
    var recs := FirstUnique(SortDesc(pool, RecScore), RecId, {}, Max(1, limit));
    PoolCandidates(visit, catalog, owned, limit, sim);
    DedupRanked(pool, Max(1, limit));
    forall c | Candidate(c, catalog, owned, limit, sim)
      ensures c.item.id in Keys(recs, RecId) || |recs| == limit
    {
      CandidatePick(c, catalog, owned, limit, sim);
    }
  }

  /** `_get_similarity_based_recommendations`. The ordered items are visited
      in an unspecified order, as a Python set is. */
  method SimilarityRecommendations(history: seq<Order>, catalog: seq<MenuItem>, limit: nat, sim: (nat, nat) -> real)
    returns (recs: seq<Rec>)
    ensures SimilarRanked(recs, history, catalog, limit, sim)
  {
    var owned := OrderedItems(history);
    if owned == {} {
      assert Visits([], owned);
      return [];
    }
    var cands := SimilarCandidates(owned, catalog, limit, sim);
    ghost var visit :| Visits(visit, owned) && cands == Pool(visit, catalog, owned, limit, sim);
    var ranked := SortDesc(cands, RecScore);
    recs := DedupAsWritten(ranked, RecId, {}, limit);
    PoolRanked(history, catalog, limit, sim, visit);
  }

  // ------------------------------------------------------------------------
  // Popularity, for customers with few orders.

  /** A row of `get_popular_items`: a menu item and its `order_count`, if the
      row has one. */
  datatype PopularRow = PopularRow(item: MenuItem, orderCount: Option<int>)

  /** `_get_popular_recommendations`: one suggestion per popular row, in row
      order, scored `item.get('order_count', 0)`. */
  method PopularRecommendations(rows: seq<PopularRow>) returns (recs: seq<Rec>)
    ensures |recs| == |rows|
    ensures forall k :: 0 <= k < |rows| ==> PopularFrom(recs[k], rows[k])
  {
    recs := [];
    for i := 0 to |rows|
      invariant |recs| == i
      invariant forall k :: 0 <= k < i ==> PopularFrom(recs[k], rows[k])
    {
      var n := match rows[i].orderCount case Some(c) => c case None => 0;
      recs := recs + [Rec(rows[i].item, n as real, PopularReason, Popular)];
    }
  }

  /** `r` is the suggestion for popular row `row`: its item, scored with its
      `order_count` or 0 when the row has none, with the popularity reason. */
  ghost predicate PopularFrom(r: Rec, row: PopularRow) {
    && r.item == row.item
    && r.score == (match row.orderCount case Some(n) => n case None => 0) as real
    && r.reason == PopularReason && r.kind == Popular
  }

  // ------------------------------------------------------------------------
  // Complementary items, by category.

  /** `{'item', 'reason', 'recommendation_type'}` of `get_complementary_items`. */
  datatype Complement = Complement(item: MenuItem, reason: string, kind: Kind)

  function ComplementId(c: Complement): int { c.item.id }

  predicate IsCoffee(m: MenuItem) { m.category == "drink" && m.subcategory == Some("coffee") }

  predicate IsPastry(m: MenuItem) { m.category == "food" && m.subcategory == Some("pastry") }

  predicate IsMeal(m: MenuItem) {
    m.category == "food" && (m.subcategory == Some("sandwich") || m.subcategory == Some("salad"))
  }

  predicate IsDrink(m: MenuItem) { m.category == "drink" }

  /** What goes with `given`: the first two pastries of the menu with a
      coffee, the first two drinks with a sandwich or a salad, nothing with
      anything else. */
  function GoesWith(given: MenuItem, catalog: seq<MenuItem>): (r: seq<MenuItem>)
    ensures |r| <= 2
    ensures forall k :: 0 <= k < |r| ==> r[k] in catalog
    ensures forall k :: 0 <= k < |r| ==> if IsCoffee(given) then IsPastry(r[k]) else IsMeal(given) && IsDrink(r[k])
  {
    if IsCoffee(given) then Take(Filter(catalog, IsPastry), 2)
    else if IsMeal(given) then Take(Filter(catalog, IsDrink), 2)
    else []
  }

  /** `given_items`: the menu items whose id is asked about, in menu order. */
  function Given(catalog: seq<MenuItem>, itemIds: seq<int>): seq<MenuItem> {
    Filter(catalog, (m: MenuItem) => m.id in itemIds)
  }

  lemma GivenFrom(catalog: seq<MenuItem>, itemIds: seq<int>, g: MenuItem)
    requires g in Given(catalog, itemIds)
    ensures g in catalog && g.id in itemIds
  {
    var given := Given(catalog, itemIds);
    var q :| 0 <= q < |given| && given[q] == g;
  }

  /** The `complementary` list: what goes with each given item, in turn. */
  function Pairings(given: seq<MenuItem>, catalog: seq<MenuItem>): seq<MenuItem> {
    if given == [] then []
    else Pairings(given[..|given| - 1], catalog) + GoesWith(given[|given| - 1], catalog)
  }

  /** Every pairing is a menu item going with one of the given items. */
  lemma {:induction false} PairingsSpec(given: seq<MenuItem>, catalog: seq<MenuItem>)
    ensures forall k :: 0 <= k < |Pairings(given, catalog)| ==>
              var m := Pairings(given, catalog)[k];
              m in catalog && exists g :: g in given && m in GoesWith(g, catalog)
  {
    if given != [] {
      var init := given[..|given| - 1];
      var g := given[|given| - 1];
      PairingsSpec(init, catalog);
      var p := Pairings(init, catalog);
      var r := Pairings(given, catalog);
      forall k | 0 <= k < |r| ensures r[k] in catalog && exists h :: h in given && r[k] in GoesWith(h, catalog) {
        if k < |p| {
          assert r[k] == p[k];
          var h :| h in init && p[k] in GoesWith(h, catalog);
          assert h in given;
        } else {
          assert r[k] == GoesWith(g, catalog)[k - |p|];
        }
      }
    }
  }

  /** The loop over `given_items` that extends `complementary`. */
  method CollectPairings(given: seq<MenuItem>, catalog: seq<MenuItem>) returns (complementary: seq<MenuItem>)
    ensures complementary == Pairings(given, catalog)
  {
    complementary := [];
    for i := 0 to |given|
      invariant complementary == Pairings(given[..i], catalog)
    {
      assert given[..i + 1][..i] == given[..i];
      complementary := complementary + GoesWith(given[i], catalog);
    }
    assert given[..|given|] == given;
  }

  function IdSet(ids: seq<int>): set<int> { set x | x in ids }

  function AsComplements(items: seq<MenuItem>): (r: seq<Complement>)
    ensures |r| == |items|
    ensures forall k :: 0 <= k < |items| ==> r[k] == Complement(items[k], ComplementReason, Complementary)
  {
    if items == [] then []
    else AsComplements(items[..|items| - 1]) + [Complement(items[|items| - 1], ComplementReason, Complementary)]
  }

  /** The result of `get_complementary_items` when the de-duplication keeps
      at most `cap` entries. */
  function Complements(catalog: seq<MenuItem>, itemIds: seq<int>, cap: nat): seq<Complement> {
    AsComplements(FirstUnique(Pairings(Given(catalog, itemIds), catalog), ItemId, IdSet(itemIds), cap))
  }

  lemma ComplementKeys(u: seq<MenuItem>)
    ensures Keys(AsComplements(u), ComplementId) == Keys(u, ItemId)
  {
  }

  /** At most `cap` entries with distinct ids, none of them asked about, each
      a menu item with the complement reason. */
  lemma ComplementsBound(catalog: seq<MenuItem>, itemIds: seq<int>, cap: nat)
    ensures var r := Complements(catalog, itemIds, cap);
      && |r| <= cap
      && Distinct(Keys(r, ComplementId))
      && forall k :: 0 <= k < |r| ==>
           && r[k].item.id !in itemIds && r[k].item in catalog
           && r[k].reason == ComplementReason && r[k].kind == Complementary
  {
    var all := Pairings(Given(catalog, itemIds), catalog);
    var u := FirstUnique(all, ItemId, IdSet(itemIds), cap);
    FirstUniqueSound(all, ItemId, IdSet(itemIds), cap);
    PairingsSpec(Given(catalog, itemIds), catalog);
    ComplementKeys(u);
  }

  /** Every entry goes with an item asked about. */
  lemma ComplementsPaired(catalog: seq<MenuItem>, itemIds: seq<int>, cap: nat)
    ensures var r := Complements(catalog, itemIds, cap);
      forall k :: 0 <= k < |r| ==>
        exists g :: g in catalog && g.id in itemIds && r[k].item in GoesWith(g, catalog)
  {
    var r := Complements(catalog, itemIds, cap);
    forall k | 0 <= k < |r| ensures exists g :: g in catalog && g.id in itemIds && r[k].item in GoesWith(g, catalog) {
      ComplementPairedOne(catalog, itemIds, cap, k);
    }
  }

  lemma ComplementPairedOne(catalog: seq<MenuItem>, itemIds: seq<int>, cap: nat, k: nat)
    requires k < |Complements(catalog, itemIds, cap)|
    ensures exists g :: g in catalog && g.id in itemIds && Complements(catalog, itemIds, cap)[k].item in GoesWith(g, catalog)
  {
    var given := Given(catalog, itemIds);
    var all := Pairings(given, catalog);
    var u := FirstUnique(all, ItemId, IdSet(itemIds), cap);
    FirstUniqueSound(all, ItemId, IdSet(itemIds), cap);
    assert Complements(catalog, itemIds, cap)[k].item == u[k];
    assert u[k] in all;
    var p :| 0 <= p < |all| && all[p] == u[k];
    PairingsSpec(given, catalog);
    var g :| g in given && u[k] in GoesWith(g, catalog);
    GivenFrom(catalog, itemIds, g);
  }

  /** A pairing not asked about is kept unless `cap` entries already are. */
  lemma ComplementsComplete(catalog: seq<MenuItem>, itemIds: seq<int>, cap: nat)
    ensures var r := Complements(catalog, itemIds, cap);
      forall m :: m in Pairings(Given(catalog, itemIds), catalog) ==>
        m.id in itemIds || m.id in Keys(r, ComplementId) || |r| == cap
  {
    var all := Pairings(Given(catalog, itemIds), catalog);
    var u := FirstUnique(all, ItemId, IdSet(itemIds), cap);
    FirstUniqueComplete(all, ItemId, IdSet(itemIds), cap);
    ComplementKeys(u);
    forall m | m in all ensures m.id in itemIds || m.id in Keys(u, ItemId) || |u| == cap {
      var p :| 0 <= p < |all| && all[p] == m;
      assert ItemId(all[p]) == m.id;
    }
  }

  /** `get_complementary_items` as written: the de-duplication appends before
      it tests `len(unique_complementary) >= limit`. */
  method GetComplementaryItemsAsWritten(catalog: seq<MenuItem>, itemIds: seq<int>, limit: nat)
    returns (r: seq<Complement>)
    ensures r == Complements(catalog, itemIds, Max(1, limit))
  {
    var given := Given(catalog, itemIds);
    var complementary := CollectPairings(given, catalog);
    var unique := DedupAsWritten(complementary, ItemId, IdSet(itemIds), limit);
    r := AsComplements(unique);
  }

  /** With `limit` 0 the loop as written still returns one entry: a coffee
      asked about, with one pastry on the menu. */
  lemma ComplementaryLimitZero()
    ensures var coffee := MenuItem(1, "latte", "drink", Some("coffee"), 3.5, [], true);
            var pastry := MenuItem(2, "croissant", "food", Some("pastry"), 2.5, [], true);
            |Complements([coffee, pastry], [1], Max(1, 0))| == 1
  {
    var coffee := MenuItem(1, "latte", "drink", Some("coffee"), 3.5, [], true);
    var pastry := MenuItem(2, "croissant", "food", Some("pastry"), 2.5, [], true);
    var catalog := [coffee, pastry];
    assert !IsPastry(coffee) && IsPastry(pastry);
    assert Filter(catalog, IsPastry) == [pastry] by {
      assert catalog[..1] == [coffee];
      assert [coffee][..0] == [];
    }
    assert Given(catalog, [1]) == [coffee] by {
      assert catalog[..1] == [coffee];
      assert [coffee][..0] == [];
    }
    assert GoesWith(coffee, catalog) == [pastry];
    assert Pairings([coffee], catalog) == [pastry] by {
      assert [coffee][..0] == [];
    }
    assert FirstUnique([pastry], ItemId, IdSet([1]), 1) == [pastry] by {
      assert [pastry][..0] == [];
      assert Keys([], ItemId) == [];
    }
  }

  /** `get_complementary_items` with the `limit` test made before the append:
      at most `limit` entries with distinct ids, none asked about, each going
      with an item asked about. */
  method GetComplementaryItems(catalog: seq<MenuItem>, itemIds: seq<int>, limit: nat)
    returns (r: seq<Complement>)
    ensures r == Complements(catalog, itemIds, limit)
    ensures |r| <= limit
    ensures Distinct(Keys(r, ComplementId))
    ensures forall k :: 0 <= k < |r| ==>
              && r[k].item.id !in itemIds && r[k].item in catalog
              && exists g :: g in catalog && g.id in itemIds && r[k].item in GoesWith(g, catalog)
  {
    var given := Given(catalog, itemIds);
    var complementary := CollectPairings(given, catalog);
    var unique := Dedup(complementary, ItemId, IdSet(itemIds), limit);
    r := AsComplements(unique);
    ComplementsBound(catalog, itemIds, limit);
    ComplementsPaired(catalog, itemIds, limit);
  }
}
