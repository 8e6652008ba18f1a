/** `_combine_recommendations` and `get_customer_recommendations` of
    `recommendation_engine.py`: the three scorers' suggestions are summed per
    item with the configured weights, with their reasons and kinds collected,
    and the best `limit` items are returned. */
module Combine {
  import opened Seqs
  import opened Text
  import opened CafeData
  import opened Dicts
  import opened Counter
  import opened Recommend

  /** A suggestion together with the weight of the list it came from. */
  datatype Weighted = Weighted(rec: Rec, weight: real)

  function WeightedId(w: Weighted): int { w.rec.item.id }

  /** A value of `combined_scores`: `{'item', 'total_score', 'reasons', 'types'}`. */
  datatype Entry = Entry(item: MenuItem, total: real, reasons: seq<string>, kinds: set<Kind>)

  /** The entry opened for a new item: its item, a zero score, no reasons, no kinds. */
  function OpenEntry(w: Weighted): Entry { Entry(w.rec.item, 0.0, [], {}) }

  /** What one suggestion adds to its item's entry. */
  function AddSuggestion(e: Entry, w: Weighted): Entry {
    Entry(e.item, e.total + w.rec.score * w.weight, e.reasons + [w.rec.reason], e.kinds + {w.rec.kind})
  }

  function EntryTotal(e: Slot<int, Entry>): real { e.val.total }

  /** A dict entry of the final list: `{'item', 'score', 'reason', 'recommendation_types'}`. */
  datatype Combined = Combined(item: MenuItem, score: real, reason: string, kinds: set<Kind>)

  function CombinedId(c: Combined): int { c.item.id }

  function CombinedScoreOf(c: Combined): real { c.score }

  function WithWeight(recs: seq<Rec>, weight: real): (r: seq<Weighted>)
    ensures |r| == |recs| && forall k :: 0 <= k < |recs| ==> r[k] == Weighted(recs[k], weight)
  {
    if recs == [] then []
    else WithWeight(recs[..|recs| - 1], weight) + [Weighted(recs[|recs| - 1], weight)]
  }

  /** The suggestions in the order the combiner reads them: frequency, then
      similarity, then recency. */
  function Stream(freq: seq<Rec>, simr: seq<Rec>, recent: seq<Rec>): seq<Weighted> {
    WithWeight(freq, WeightFrequency) + WithWeight(simr, WeightSimilarity) + WithWeight(recent, WeightRecency)
  }

  // ------------------------------------------------------------------------
  // Reference definitions of what an item's entry holds.

  /** The summed score of the suggestions for `id` in one list. */
  function ScoreFor(recs: seq<Rec>, id: int): real {
    if recs == [] then 0.0
    else
      var r := recs[|recs| - 1];
      ScoreFor(recs[..|recs| - 1], id) + (if r.item.id == id then r.score else 0.0)
  }

  /** The design's weighted score of an item:
      0.4 * frequency + 0.3 * similarity + 0.3 * recency. */
  function CombinedScore(freq: seq<Rec>, simr: seq<Rec>, recent: seq<Rec>, id: int): real {
    WeightFrequency * ScoreFor(freq, id) + WeightSimilarity * ScoreFor(simr, id) + WeightRecency * ScoreFor(recent, id)
  }

  /** The weighted scores of the suggestions for `id`, summed. */
  function WeightedTotal(s: seq<Weighted>, id: int): real {
    if s == [] then 0.0
    else
      var w := s[|s| - 1];
      WeightedTotal(s[..|s| - 1], id) + (if WeightedId(w) == id then w.rec.score * w.weight else 0.0)
  }

  /** The reasons of the suggestions for `id`, in order. */
  function ReasonsFor(s: seq<Weighted>, id: int): seq<string> {
    if s == [] then []
    else
      var w := s[|s| - 1];
      ReasonsFor(s[..|s| - 1], id) + (if WeightedId(w) == id then [w.rec.reason] else [])
  }

  /** The kinds of the suggestions for `id`. */
  function KindsFor(s: seq<Weighted>, id: int): set<Kind> {
    if s == [] then {}
    else
      var w := s[|s| - 1];
      KindsFor(s[..|s| - 1], id) + (if WeightedId(w) == id then {w.rec.kind} else {})
  }

  /** The item of the first suggestion for `id`. */
  function FirstItemFor(s: seq<Weighted>, id: int): Option<MenuItem> {
    if s == [] then None
    else
      var p := FirstItemFor(s[..|s| - 1], id);
      var w := s[|s| - 1];
      if p.Some? then p else if WeightedId(w) == id then Some(w.rec.item) else None
  }

  lemma {:induction false} ForAbsent(s: seq<Weighted>, id: int)
    requires id !in Keys(s, WeightedId)
    ensures WeightedTotal(s, id) == 0.0 && ReasonsFor(s, id) == [] && KindsFor(s, id) == {}
    ensures FirstItemFor(s, id) == None
  {
    if s != [] {
      assert Keys(s, WeightedId)[|s| - 1] == WeightedId(s[|s| - 1]);
      ForAbsent(s[..|s| - 1], id);
    }
  }

  /** The entry the walk leaves under an item holds the first suggestion's
      item, the weighted total, the reasons and the kinds of the item's
      suggestions. */
  lemma {:induction false} AccEntry(s: seq<Weighted>, id: int)
    requires id in Keys(s, WeightedId)
    ensures FirstItemFor(s, id).Some? && FirstItemFor(s, id).value.id == id
    ensures Acc(s, WeightedId, id, OpenEntry, AddSuggestion) ==
            Some(Entry(FirstItemFor(s, id).value, WeightedTotal(s, id), ReasonsFor(s, id), KindsFor(s, id)))
  {
    var init := s[..|s| - 1];
    var w := s[|s| - 1];
    assert Keys(s, WeightedId) == Keys(init, WeightedId) + [WeightedId(w)];
    if id in Keys(init, WeightedId) {
      AccEntry(init, id);
      var e := Acc(init, WeightedId, id, OpenEntry, AddSuggestion).value;
      if WeightedId(w) == id {
        assert Acc(s, WeightedId, id, OpenEntry, AddSuggestion) == Some(AddSuggestion(e, w));
      } else {
        assert Acc(s, WeightedId, id, OpenEntry, AddSuggestion) == Some(e);
        assert ReasonsFor(s, id) == ReasonsFor(init, id) + [];
        assert ReasonsFor(init, id) + [] == ReasonsFor(init, id);
        assert ReasonsFor(s, id) == ReasonsFor(init, id);
        assert KindsFor(s, id) == KindsFor(init, id);
        assert WeightedTotal(s, id) == WeightedTotal(init, id);
        assert FirstItemFor(s, id) == FirstItemFor(init, id);
      }
    } else {
      AccSome(init, WeightedId, id, OpenEntry, AddSuggestion);
      ForAbsent(init, id);
    }
  }

  lemma {:induction false} WeightedTotalAppend(a: seq<Weighted>, b: seq<Weighted>, id: int)
    ensures WeightedTotal(a + b, id) == WeightedTotal(a, id) + WeightedTotal(b, id)
  {
    if b == [] {
      assert a + b == a;
    } else {
      WeightedTotalAppend(a, b[..|b| - 1], id);
      assert (a + b)[..|a + b| - 1] == a + b[..|b| - 1];
    }
  }

  lemma {:induction false} WeightedTotalWith(recs: seq<Rec>, weight: real, id: int)
    ensures WeightedTotal(WithWeight(recs, weight), id) == weight * ScoreFor(recs, id)
  {
    WeightedTotalScaled(recs, weight, id);
    ScaledScoreFor(recs, weight, id);
  }

  /** The scores of the suggestions for `id`, each times `weight`, summed. */
  function ScaledScore(recs: seq<Rec>, weight: real, id: int): real {
    if recs == [] then 0.0
    else
      var r := recs[|recs| - 1];
      ScaledScore(recs[..|recs| - 1], weight, id) + (if r.item.id == id then r.score * weight else 0.0)
  }

  lemma {:induction false} WeightedTotalScaled(recs: seq<Rec>, weight: real, id: int)
    ensures WeightedTotal(WithWeight(recs, weight), id) == ScaledScore(recs, weight, id)
  {
    if recs != [] {
      var init := recs[..|recs| - 1];
      WeightedTotalScaled(init, weight, id);
      assert WithWeight(recs, weight) == WithWeight(init, weight) + [Weighted(recs[|recs| - 1], weight)];
      WeightedTotalSnoc(WithWeight(init, weight), Weighted(recs[|recs| - 1], weight), id);
    }
  }

  lemma {:induction false} ScaledScoreFor(recs: seq<Rec>, weight: real, id: int)
    ensures ScaledScore(recs, weight, id) == weight * ScoreFor(recs, id)
  {
    if recs != [] {
      var init := recs[..|recs| - 1];
      var r := recs[|recs| - 1];
      ScaledScoreFor(init, weight, id);
      if r.item.id == id {
        Distribute(weight, ScoreFor(init, id), r.score);
      }
    }
  }

  lemma Distribute(w: real, a: real, x: real)
    ensures w * (a + x) == w * a + x * w
  {
  }

  lemma WeightedTotalSnoc(s: seq<Weighted>, w: Weighted, id: int)
    ensures WeightedTotal(s + [w], id) == WeightedTotal(s, id) + (if WeightedId(w) == id then w.rec.score * w.weight else 0.0)
  {
    assert (s + [w])[..|s|] == s;
  }

  /** The total the walk sums for an item is its weighted score. */
  lemma StreamTotal(freq: seq<Rec>, simr: seq<Rec>, recent: seq<Rec>, id: int)
    ensures WeightedTotal(Stream(freq, simr, recent), id) == CombinedScore(freq, simr, recent, id)
  {
    var a := WithWeight(freq, WeightFrequency);
    var b := WithWeight(simr, WeightSimilarity);
    var c := WithWeight(recent, WeightRecency);
    WeightedTotalAppend(a + b, c, id);
    WeightedTotalAppend(a, b, id);
    WeightedTotalWith(freq, WeightFrequency, id);
    WeightedTotalWith(simr, WeightSimilarity, id);
    WeightedTotalWith(recent, WeightRecency, id);
  }

  /** An item's kinds are exactly the kinds of its suggestions. */
  lemma {:induction false} KindsForSpec(s: seq<Weighted>, id: int)
    ensures forall k :: k in KindsFor(s, id) <==>
              exists j :: 0 <= j < |s| && WeightedId(s[j]) == id && s[j].rec.kind == k
  {
    if s != [] {
      var init := s[..|s| - 1];
      KindsForSpec(init, id);
      forall k | k in KindsFor(s, id) ensures exists j :: 0 <= j < |s| && WeightedId(s[j]) == id && s[j].rec.kind == k {
        if k in KindsFor(init, id) {
          var j :| 0 <= j < |init| && WeightedId(init[j]) == id && init[j].rec.kind == k;
          assert s[j] == init[j];
        } else {
          assert s[|s| - 1].rec.kind == k;
        }
      }
      forall k, j | 0 <= j < |s| && WeightedId(s[j]) == id && s[j].rec.kind == k ensures k in KindsFor(s, id) {
        if j < |s| - 1 {
          assert init[j] == s[j];
        }
      }
    }
  }

  /** An item's reasons are exactly the reasons of its suggestions. */
  lemma {:induction false} ReasonsForSpec(s: seq<Weighted>, id: int)
    ensures forall t :: t in ReasonsFor(s, id) <==>
              exists j :: 0 <= j < |s| && WeightedId(s[j]) == id && s[j].rec.reason == t
  {
    if s != [] {
      var init := s[..|s| - 1];
      ReasonsForSpec(init, id);
      forall t | t in ReasonsFor(s, id) ensures exists j :: 0 <= j < |s| && WeightedId(s[j]) == id && s[j].rec.reason == t {
        if t in ReasonsFor(init, id) {
          var j :| 0 <= j < |init| && WeightedId(init[j]) == id && init[j].rec.reason == t;
          assert s[j] == init[j];
        } else {
          assert s[|s| - 1].rec.reason == t;
        }
      }
      forall t, j | 0 <= j < |s| && WeightedId(s[j]) == id && s[j].rec.reason == t ensures t in ReasonsFor(s, id) {
        if j < |s| - 1 {
          assert init[j] == s[j];
        }
      }
    }
  }

  /** The first item is the item of a suggestion. */
  lemma {:induction false} FirstItemSpec(s: seq<Weighted>, id: int)
    requires FirstItemFor(s, id).Some?
    ensures exists j :: 0 <= j < |s| && s[j].rec.item == FirstItemFor(s, id).value
  {
    var init := s[..|s| - 1];
    if FirstItemFor(init, id).Some? {
      FirstItemSpec(init, id);
      var j :| 0 <= j < |init| && init[j].rec.item == FirstItemFor(init, id).value;
      assert s[j] == init[j];
    } else {
      assert s[|s| - 1].rec.item == FirstItemFor(s, id).value;
    }
  }

  // ------------------------------------------------------------------------
  // The walk and the ranking.

  /** One of the three loops: every suggestion of `recs`, with `weight`. */
  method AddAll(table: seq<Slot<int, Entry>>, recs: seq<Rec>, weight: real, ghost before: seq<Weighted>)
    returns (table': seq<Slot<int, Entry>>)
    requires Filled(before, WeightedId, OpenEntry, AddSuggestion, table)
    ensures Filled(before + WithWeight(recs, weight), WeightedId, OpenEntry, AddSuggestion, table')
  {
    table' := table;
    ghost var seen := before;
    for i := 0 to |recs|
      invariant seen == before + WithWeight(recs[..i], weight)
      invariant Filled(seen, WeightedId, OpenEntry, AddSuggestion, table')
    {
      var w := Weighted(recs[i], weight);
      table' := Put(table', w, WeightedId, OpenEntry, AddSuggestion, seen);
      WithWeightSnoc(recs, i, weight);
      ConcatSnoc(before, WithWeight(recs[..i], weight), w);
      seen := seen + [w];
    }
    assert recs[..|recs|] == recs;
  }

  lemma WithWeightSnoc(recs: seq<Rec>, i: nat, weight: real)
    requires i < |recs|
    ensures WithWeight(recs[..i + 1], weight) == WithWeight(recs[..i], weight) + [Weighted(recs[i], weight)]
  {
    assert recs[..i + 1][..i] == recs[..i];
  }

  /** The table the three loops fill holds, under each item, its reference entry. */
  lemma TableEntries(s: seq<Weighted>, table: seq<Slot<int, Entry>>)
    requires Filled(s, WeightedId, OpenEntry, AddSuggestion, table)
    ensures Distinct(Keys(table, SlotKey))
    ensures |table| == |FirstSeen(Keys(s, WeightedId))|
    ensures forall id :: id in Keys(table, SlotKey) <==> id in Keys(s, WeightedId)
    ensures forall i :: 0 <= i < |table| ==> EntryOf(s, table[i])
  {
    FilledDistinct(s, WeightedId, OpenEntry, AddSuggestion, table);
    FirstSeenSpec(Keys(s, WeightedId));
    forall i | 0 <= i < |table| ensures EntryOf(s, table[i]) {
      assert Keys(table, SlotKey)[i] == table[i].key;
      AccEntry(s, table[i].key);
    }
  }

  /** `e` is the reference entry of its item. */
  ghost predicate EntryOf(s: seq<Weighted>, e: Slot<int, Entry>) {
    && e.key in Keys(s, WeightedId)
    && FirstItemFor(s, e.key).Some?
    && e.val == Entry(FirstItemFor(s, e.key).value, WeightedTotal(s, e.key), ReasonsFor(s, e.key), KindsFor(s, e.key))
    && e.val.item.id == e.key
  }

  function ReasonSet(reasons: seq<string>): set<string> { set t | t in reasons }

  /** `reason` joins, with "; ", up to two distinct reasons out of `reasons`:
      two when there are two or more different ones. */
  ghost predicate Reasoned(reason: string, reasons: seq<string>) {
    exists picked: seq<string> ::
      && Distinct(picked) && |picked| == Min(2, |ReasonSet(reasons)|)
      && (forall k :: 0 <= k < |picked| ==> picked[k] in reasons)
      && reason == Join(picked, "; ")
  }

  /** `list(set(reasons))[:2]`: up to two different reasons, in an unspecified
      order, as a Python set is. */
  method PickReasons(reasons: seq<string>) returns (picked: seq<string>)
    ensures Distinct(picked) && |picked| == Min(2, |ReasonSet(reasons)|)
    ensures forall k :: 0 <= k < |picked| ==> picked[k] in reasons
  {
    var pool := ReasonSet(reasons);
    if pool == {} {
      picked := [];
    } else {
      var a := Pick(pool);
      var rest := pool - {a};
      assert |rest| == |pool| - 1;
      if rest == {} {
        picked := [a];
      } else {
        var b := Pick(rest);
        picked := [a, b];
      }
    }
  }

  /** `c` is the final dict made from the table entry `e`. */
  ghost predicate Finished(c: Combined, e: Slot<int, Entry>) {
    && c.item == e.val.item && c.score == e.val.total && c.kinds == e.val.kinds
    && Reasoned(c.reason, e.val.reasons)
  }

  /** The best `limit` entries, by total score, made into the final list. */
  method Finish(ranked: seq<Slot<int, Entry>>) returns (out: seq<Combined>)
    ensures |out| == |ranked|
    ensures forall k :: 0 <= k < |ranked| ==> Finished(out[k], ranked[k])
  {
    out := [];
    for i := 0 to |ranked|
      invariant |out| == i
      invariant forall k :: 0 <= k < i ==> Finished(out[k], ranked[k])
    {
      var e := ranked[i].val;
      var picked := PickReasons(e.reasons);
      var c := Combined(e.item, e.total, Join(picked, "; "), e.kinds);
      assert Reasoned(c.reason, e.reasons);
      out := out + [c];
    }
  }

  /** `c` is the combined suggestion for its item: that item's first
      suggestion's item, its weighted score, the kinds of its suggestions and
      up to two of their reasons. */
  ghost predicate CombinedFrom(c: Combined, freq: seq<Rec>, simr: seq<Rec>, recent: seq<Rec>) {
    var s := Stream(freq, simr, recent);
    var id := c.item.id;
    && id in Keys(s, WeightedId)
    && FirstItemFor(s, id) == Some(c.item)
    && c.score == CombinedScore(freq, simr, recent, id)
    && c.kinds == KindsFor(s, id)
    && Reasoned(c.reason, ReasonsFor(s, id))
  }

  /** The best `limit` table entries: reference entries of distinct items,
      in descending total, one per item up to `limit`. */
  lemma RankedEntries(s: seq<Weighted>, table: seq<Slot<int, Entry>>, limit: nat)
    requires Filled(s, WeightedId, OpenEntry, AddSuggestion, table)
    ensures var ranked := Take(SortDesc(table, EntryTotal), limit);
      && |ranked| == Min(limit, |FirstSeen(Keys(s, WeightedId))|)
      && SortedDesc(ranked, EntryTotal)
      && Distinct(Keys(ranked, SlotKey))
      && forall k :: 0 <= k < |ranked| ==> EntryOf(s, ranked[k])
  {
    var ranked := Take(SortDesc(table, EntryTotal), limit);
    TableEntries(s, table);
    TopSpec(table, EntryTotal, limit);
    SortDescKeys(table, EntryTotal, SlotKey);
    TakeKeys(SortDesc(table, EntryTotal), limit, SlotKey);
    TopFrom(table, EntryTotal, limit);
    forall k | 0 <= k < |ranked| ensures EntryOf(s, ranked[k]) {
      var i :| 0 <= i < |table| && table[i] == ranked[k];
    }
  }

  /** Each final entry is the combined suggestion of a distinct item, in
      descending score. */
  lemma FinishedFrom(freq: seq<Rec>, simr: seq<Rec>, recent: seq<Rec>, ranked: seq<Slot<int, Entry>>, out: seq<Combined>)
    requires SortedDesc(ranked, EntryTotal) && Distinct(Keys(ranked, SlotKey))
    requires forall k :: 0 <= k < |ranked| ==> EntryOf(Stream(freq, simr, recent), ranked[k])
    requires |out| == |ranked| && forall k :: 0 <= k < |ranked| ==> Finished(out[k], ranked[k])
    ensures SortedDesc(out, CombinedScoreOf)
    ensures Distinct(Keys(out, CombinedId))
    ensures forall k :: 0 <= k < |out| ==> CombinedFrom(out[k], freq, simr, recent)
    ensures forall k :: 0 <= k < |out| ==> out[k].item.id == ranked[k].key && out[k].score == EntryTotal(ranked[k])
  {
    forall k | 0 <= k < |out| ensures CombinedFrom(out[k], freq, simr, recent) && out[k].item.id == ranked[k].key {
      FinishedOne(freq, simr, recent, ranked[k], out[k]);
    }
    FinishedOrder(ranked, out);
  }

  /** One final entry made from a reference entry. */
  lemma FinishedOne(freq: seq<Rec>, simr: seq<Rec>, recent: seq<Rec>, e: Slot<int, Entry>, c: Combined)
    requires EntryOf(Stream(freq, simr, recent), e) && Finished(c, e)
    ensures CombinedFrom(c, freq, simr, recent) && c.item.id == e.key
  {
    StreamTotal(freq, simr, recent, e.key);
  }

  /** Final entries in the order of distinct, sorted table entries are sorted
      and distinct. */
  lemma FinishedOrder(ranked: seq<Slot<int, Entry>>, out: seq<Combined>)
    requires SortedDesc(ranked, EntryTotal) && Distinct(Keys(ranked, SlotKey))
    requires |out| == |ranked| && forall k :: 0 <= k < |ranked| ==> out[k].item.id == ranked[k].key && out[k].score == EntryTotal(ranked[k])
    ensures SortedDesc(out, CombinedScoreOf)
    ensures Distinct(Keys(out, CombinedId))
  {
    forall i, j | 0 <= i < j < |out| ensures Keys(out, CombinedId)[i] != Keys(out, CombinedId)[j] {
      assert Keys(ranked, SlotKey)[i] != Keys(ranked, SlotKey)[j];
    }
    forall i, j | 0 <= i < j < |out| ensures CombinedScoreOf(out[i]) >= CombinedScoreOf(out[j]) {
      assert EntryTotal(ranked[i]) >= EntryTotal(ranked[j]);
    }
  }

  /** An item that was suggested and is left out scores no more than any
      final entry, and is left out only when `limit` entries are there. */
  lemma LeftOut(freq: seq<Rec>, simr: seq<Rec>, recent: seq<Rec>, table: seq<Slot<int, Entry>>, limit: nat, out: seq<Combined>)
    requires Filled(Stream(freq, simr, recent), WeightedId, OpenEntry, AddSuggestion, table)
    requires var ranked := Take(SortDesc(table, EntryTotal), limit);
      |out| == |ranked| && forall k :: 0 <= k < |ranked| ==> out[k].item.id == ranked[k].key && out[k].score == EntryTotal(ranked[k])
    ensures forall id :: id in Keys(Stream(freq, simr, recent), WeightedId) && id !in Keys(out, CombinedId) ==>
              |out| == limit && forall k :: 0 <= k < |out| ==> out[k].score >= CombinedScore(freq, simr, recent, id)
  {
    var s := Stream(freq, simr, recent);
    var ranked := Take(SortDesc(table, EntryTotal), limit);
    TableEntries(s, table);
    forall id | id in Keys(s, WeightedId) && id !in Keys(out, CombinedId)
      ensures |out| == limit && forall k :: 0 <= k < |out| ==> out[k].score >= CombinedScore(freq, simr, recent, id)
    {
      assert id in Keys(table, SlotKey);
      var j :| 0 <= j < |table| && Keys(table, SlotKey)[j] == id;
      assert EntryOf(s, table[j]);
      forall k | 0 <= k < |ranked| ensures ranked[k].key != id {
        assert Keys(out, CombinedId)[k] == out[k].item.id;
      }
      TopLeftOut(table, EntryTotal, SlotKey, limit, table[j]);
      StreamTotal(freq, simr, recent, id);
    }
  }

  /** What the combiner promises: one entry per distinct suggested item up to
      `limit`, in descending weighted score with distinct ids, each with the
      design's weighted score, the kinds of its suggestions and up to two of
      their reasons; a suggested item is left out only when `limit` entries
      are there, none scoring below it. */
  ghost predicate CombinedRanked(out: seq<Combined>, freq: seq<Rec>, simr: seq<Rec>, recent: seq<Rec>, limit: nat) {
    && |out| == Min(limit, |FirstSeen(Keys(Stream(freq, simr, recent), WeightedId))|)
    && SortedDesc(out, CombinedScoreOf)
    && Distinct(Keys(out, CombinedId))
    && (forall k :: 0 <= k < |out| ==> CombinedFrom(out[k], freq, simr, recent))
    && (forall id :: id in Keys(Stream(freq, simr, recent), WeightedId) && id !in Keys(out, CombinedId) ==>
          |out| == limit && forall k :: 0 <= k < |out| ==> out[k].score >= CombinedScore(freq, simr, recent, id))
  }

  /** `_combine_recommendations`: one entry per distinct suggested item, the
      best `limit` of them by weighted score, each with the design's weighted
      score, the kinds of its suggestions and up to two of their reasons. */
  method CombineRecommendations(freq: seq<Rec>, simr: seq<Rec>, recent: seq<Rec>, limit: nat)
    returns (out: seq<Combined>)
    ensures CombinedRanked(out, freq, simr, recent, limit)
  {
    var table: seq<Slot<int, Entry>> := [];
    FilledEmpty(WeightedId, OpenEntry, AddSuggestion);
    table := AddAll(table, freq, WeightFrequency, []);
    ghost var seen := WithWeight(freq, WeightFrequency);
    assert [] + seen == seen;
    table := AddAll(table, simr, WeightSimilarity, seen);
    seen := seen + WithWeight(simr, WeightSimilarity);
    table := AddAll(table, recent, WeightRecency, seen);
    seen := seen + WithWeight(recent, WeightRecency);
    assert seen == Stream(freq, simr, recent);
    var ranked := Take(SortDesc(table, EntryTotal), limit);
    out := Finish(ranked);
    RankedEntries(seen, table, limit);
    FinishedFrom(freq, simr, recent, ranked, out);
    LeftOut(freq, simr, recent, table, limit, out);
  }

  // ------------------------------------------------------------------------
  // The entry point.

  /** What `get_customer_recommendations` returns: the popular list for a
      customer with too few orders, the combined list otherwise. */
  datatype Recommendations = ColdStart(popular: seq<Rec>) | Personal(combined: seq<Combined>)

  /** A scorer's suggestion, as the three scorers promise it: a menu item of
      one of their three kinds; a frequency or recency suggestion was ordered
      (recently, for recency), a similarity suggestion never was. */
  ghost predicate Sourced(w: Weighted, history: seq<Order>, catalog: seq<MenuItem>, now: int) {
    var id := w.rec.item.id;
    && w.rec.item in catalog
    && (w.rec.kind == Frequency || w.rec.kind == Similarity || w.rec.kind == Recency)
    && (w.rec.kind == Frequency ==> id in Keys(Lines(history), LineItemId))
    && (w.rec.kind == Similarity ==> id !in OwnedIds(Lines(history)))
    && (w.rec.kind == Recency ==> id in Keys(Lines(RecentOrders(history, now)), LineItemId))
  }

  lemma StreamSourced(freq: seq<Rec>, simr: seq<Rec>, recent: seq<Rec>, history: seq<Order>, catalog: seq<MenuItem>,
                      now: int, sim: (nat, nat) -> real, limit: nat)
    requires CountRanked(freq, Lines(history), catalog, limit, Frequency, FrequencyLead)
    requires forall k :: 0 <= k < |simr| ==> SimilarPick(simr[k], catalog, OwnedIds(Lines(history)), sim)
    requires CountRanked(recent, Lines(RecentOrders(history, now)), catalog, limit, Recency, RecencyLead)
    ensures forall j :: 0 <= j < |Stream(freq, simr, recent)| ==> Sourced(Stream(freq, simr, recent)[j], history, catalog, now)
  {
    var a := WithWeight(freq, WeightFrequency);
    var b := WithWeight(simr, WeightSimilarity);
    var c := WithWeight(recent, WeightRecency);
    var s := Stream(freq, simr, recent);
    forall j | 0 <= j < |s| ensures Sourced(s[j], history, catalog, now) {
      if j < |a| {
        assert s[j] == a[j];
      } else if j < |a| + |b| {
        assert s[j] == b[j - |a|];
        var i, m :| 0 <= i < |catalog| && 0 <= m < |catalog| &&
          catalog[i].id in OwnedIds(Lines(history)) && simr[j - |a|].item == catalog[m] && simr[j - |a|].score == sim(i, m);
      } else {
        assert s[j] == c[j - |a| - |b|];
      }
    }
  }

  /** A combined suggestion, as `get_customer_recommendations` promises it: a
      menu item with at least one of the three kinds; an item that was
      ordered is never suggested as similar, an item never ordered is never
      suggested for its frequency or recency. */
  ghost predicate Personalised(c: Combined, history: seq<Order>, catalog: seq<MenuItem>, now: int) {
    var id := c.item.id;
    && c.item in catalog
    && c.kinds != {} && c.kinds <= {Frequency, Similarity, Recency}
    && (Frequency in c.kinds ==> id in OwnedIds(Lines(history)))
    && (Similarity in c.kinds ==> id !in OwnedIds(Lines(history)))
    && (Recency in c.kinds ==> id in OwnedIds(Lines(RecentOrders(history, now))))
    && !(Frequency in c.kinds && Similarity in c.kinds)
  }

  /** A kind of an item comes from one of its suggestions. */
  lemma KindSourced(s: seq<Weighted>, id: int, k: Kind, history: seq<Order>, catalog: seq<MenuItem>, now: int)
    requires forall j :: 0 <= j < |s| ==> Sourced(s[j], history, catalog, now)
    requires k in KindsFor(s, id)
    ensures k == Frequency || k == Similarity || k == Recency
    ensures k == Frequency ==> id in OwnedIds(Lines(history))
    ensures k == Similarity ==> id !in OwnedIds(Lines(history))
    ensures k == Recency ==> id in OwnedIds(Lines(RecentOrders(history, now)))
  {
    KindsForSpec(s, id);
    var i :| 0 <= i < |s| && WeightedId(s[i]) == id && s[i].rec.kind == k;
    assert Sourced(s[i], history, catalog, now);
    OwnedIdsSpec(Lines(history));
    OwnedIdsSpec(Lines(RecentOrders(history, now)));
  }

  /** A suggested item has a kind. */
  lemma KindsNonEmpty(s: seq<Weighted>, id: int)
    requires id in Keys(s, WeightedId)
    ensures KindsFor(s, id) != {}
  {
    KindsForSpec(s, id);
    var j :| 0 <= j < |s| && Keys(s, WeightedId)[j] == id;
    assert s[j].rec.kind in KindsFor(s, id);
  }

  lemma PersonalisedFrom(c: Combined, freq: seq<Rec>, simr: seq<Rec>, recent: seq<Rec>, history: seq<Order>,
                         catalog: seq<MenuItem>, now: int)
    requires forall j :: 0 <= j < |Stream(freq, simr, recent)| ==> Sourced(Stream(freq, simr, recent)[j], history, catalog, now)
    requires CombinedFrom(c, freq, simr, recent)
    ensures Personalised(c, history, catalog, now)
  {
    var s := Stream(freq, simr, recent);
    var id := c.item.id;
    KindsNonEmpty(s, id);
    FirstItemSpec(s, id);
    var f :| 0 <= f < |s| && s[f].rec.item == c.item;
    assert Sourced(s[f], history, catalog, now);
    forall k | k in c.kinds
      ensures k in {Frequency, Similarity, Recency}
      ensures k == Frequency ==> id in OwnedIds(Lines(history))
      ensures k == Similarity ==> id !in OwnedIds(Lines(history))
      ensures k == Recency ==> id in OwnedIds(Lines(RecentOrders(history, now)))
    {
      KindSourced(s, id, k, history, catalog, now);
    }
  }

  /** `get_customer_recommendations`: the popular list, exactly, for a
      customer with fewer than `MIN_ORDERS_FOR_RECOMMENDATION` orders;
      otherwise the three scorers with `limit * 2` each, combined down to at
      most `limit` suggestions of distinct items in descending score.
      `popularRows` is `get_popular_items(limit)`, `now` the current time in
      seconds, `sim` the cosine similarity of two menu positions. */
  method GetCustomerRecommendations(history: seq<Order>, catalog: seq<MenuItem>, popularRows: seq<PopularRow>,
                                    now: int, sim: (nat, nat) -> real, limit: nat)
    returns (r: Recommendations)
    ensures r.ColdStart? <==> |history| < MinOrdersForRecommendation
    ensures r.ColdStart? ==>
              && |r.popular| == |popularRows|
              && forall k :: 0 <= k < |popularRows| ==> PopularFrom(r.popular[k], popularRows[k])
    ensures r.Personal? ==>
              && |r.combined| <= limit
              && SortedDesc(r.combined, CombinedScoreOf)
              && Distinct(Keys(r.combined, CombinedId))
              && forall k :: 0 <= k < |r.combined| ==> Personalised(r.combined[k], history, catalog, now)
    ensures r.Personal? ==>
              exists simr :: PersonalFrom(r.combined, simr, history, catalog, now, sim, limit)
  {
    if |history| < MinOrdersForRecommendation {
      var popular := PopularRecommendations(popularRows);
      return ColdStart(popular);
    }
    var freq := FrequencyRecommendations(history, catalog, limit * 2);
    var simr := SimilarityRecommendations(history, catalog, limit * 2, sim);
    var recent := RecencyRecommendations(history, catalog, now, limit * 2);
    var combined := CombineRecommendations(freq, simr, recent, limit);
    StreamSourced(freq, simr, recent, history, catalog, now, sim, limit * 2);
    forall k | 0 <= k < |combined| ensures Personalised(combined[k], history, catalog, now) {
      PersonalisedFrom(combined[k], freq, simr, recent, history, catalog, now);
    }
    r := Personal(combined);
    assert PersonalFrom(combined, simr, history, catalog, now, sim, limit);
  }

  /** The combined list is what the combiner makes of the three scorers'
      lists with `limit * 2` each: the frequency and recency lists are
      `most_common(limit * 2)` of all and of the recent orders, and `simr` is
      a list the similarity scorer may return. */
  ghost predicate PersonalFrom(combined: seq<Combined>, simr: seq<Rec>, history: seq<Order>, catalog: seq<MenuItem>,
                               now: int, sim: (nat, nat) -> real, limit: nat) {
    && SimilarRanked(simr, history, catalog, limit * 2, sim)
    && CombinedRanked(combined,
                      MostCommon(Lines(history), catalog, limit * 2, Frequency, FrequencyLead),
                      simr,
                      MostCommon(Lines(RecentOrders(history, now)), catalog, limit * 2, Recency, RecencyLead),
                      limit)
  }
}
