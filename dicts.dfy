/** A Python dict filled by walking a list, one element at a time:
        d[key(x)] = step(d[key(x)] if key(x) in d else start(x), x)
    A `Counter` updated with `+=`, the order table of the row grouping and the
    score table of the recommendation combiner are all this loop. The dict is
    a sequence of slots in insertion order, which is the order Python iterates
    a dict in. */
module Dicts {
  import opened Seqs

  datatype Slot<K, V> = Slot(key: K, val: V)

  function SlotKey<K, V>(e: Slot<K, V>): K { e.key }

  /** The value the walk over `s` leaves under `k`: `start` of the first
      element with key `k`, then `step` with every element with key `k`, in
      order. `None` when no element has key `k`. */
  function Acc<T, K(==), V>(s: seq<T>, key: T -> K, k: K, start: T -> V, step: (V, T) -> V): Option<V>
  {
    if s == [] then None
    else
      var p := Acc(s[..|s| - 1], key, k, start, step);
      var x := s[|s| - 1];
      if key(x) != k then p
      else if p.None? then Some(step(start(x), x))
      else Some(step(p.value, x))
  }

  /** A key is in the dict exactly when some element carries it. */
  lemma {:induction false} AccSome<T, K, V>(s: seq<T>, key: T -> K, k: K, start: T -> V, step: (V, T) -> V)
    ensures Acc(s, key, k, start, step).Some? <==> k in Keys(s, key)
  {
    if s != [] {
      AccSome(s[..|s| - 1], key, k, start, step);
      assert Keys(s, key) == Keys(s[..|s| - 1], key) + [key(s[|s| - 1])];
    }
  }

  lemma AccSnoc<T, K, V>(s: seq<T>, x: T, key: T -> K, k: K, start: T -> V, step: (V, T) -> V)
    ensures Acc(s + [x], key, k, start, step) ==
            var p := Acc(s, key, k, start, step);
            if key(x) != k then p
            else if p.None? then Some(step(start(x), x))
            else Some(step(p.value, x))
  {
    assert (s + [x])[..|s|] == s;
  }

  /** `d` is the dict the walk over `s` fills: one slot per distinct key, in
      first-occurrence order, each holding the accumulated value of its key. */
  ghost predicate Filled<T, K, V>(s: seq<T>, key: T -> K, start: T -> V, step: (V, T) -> V, d: seq<Slot<K, V>>) {
    && Keys(d, SlotKey) == FirstSeen(Keys(s, key))
    && forall i :: 0 <= i < |d| ==> Acc(s, key, d[i].key, start, step) == Some(d[i].val)
  }

  lemma FilledEmpty<T, K, V>(key: T -> K, start: T -> V, step: (V, T) -> V)
    ensures Filled([], key, start, step, [])
  {
  }

  /** Two slots of a filled dict never share a key. */
  lemma FilledDistinct<T, K, V>(s: seq<T>, key: T -> K, start: T -> V, step: (V, T) -> V, d: seq<Slot<K, V>>)
    requires Filled(s, key, start, step, d)
    ensures forall i, j :: 0 <= i < j < |d| ==> d[i].key != d[j].key
    ensures forall k :: k in Keys(d, SlotKey) <==> k in Keys(s, key)
  {
    FirstSeenSpec(Keys(s, key));
    forall i, j | 0 <= i < j < |d| ensures d[i].key != d[j].key {
      assert Keys(d, SlotKey)[i] != Keys(d, SlotKey)[j];
    }
  }

  /** An element with a key not yet in the dict opens a new slot. */
  lemma FilledNew<T, K, V>(s: seq<T>, x: T, key: T -> K, start: T -> V, step: (V, T) -> V, d: seq<Slot<K, V>>)
    requires Filled(s, key, start, step, d)
    requires key(x) !in Keys(d, SlotKey)
    ensures Filled(s + [x], key, start, step, d + [Slot(key(x), step(start(x), x))])
  {
    var k := key(x);
    var e := Slot(k, step(start(x), x));
    var d' := d + [e];
    FirstSeenSpec(Keys(s, key));
    FirstSeenSnoc(Keys(s, key), k);
    KeysSnoc(s, x, key);
    KeysSnoc(d, e, SlotKey);
    AccSome(s, key, k, start, step);
    assert k !in FirstSeen(Keys(s, key));
    assert k !in Keys(s, key);
    forall i | 0 <= i < |d'| ensures Acc(s + [x], key, d'[i].key, start, step) == Some(d'[i].val) {
      AccSnoc(s, x, key, d'[i].key, start, step);
      if i < |d| {
        assert Keys(d, SlotKey)[i] == d[i].key;
      } else {
        assert d'[i] == e;
      }
    }
  }

  /** An element whose key sits in slot `i` updates that slot alone. */
  lemma FilledKnown<T, K, V>(s: seq<T>, x: T, key: T -> K, start: T -> V, step: (V, T) -> V, d: seq<Slot<K, V>>, i: nat)
    requires Filled(s, key, start, step, d)
    requires i < |d| && d[i].key == key(x)
    ensures Filled(s + [x], key, start, step, d[i := Slot(key(x), step(d[i].val, x))])
  {
    var k := key(x);
    var d' := d[i := Slot(k, step(d[i].val, x))];
    FirstSeenSpec(Keys(s, key));
    FirstSeenSnoc(Keys(s, key), k);
    KeysSnoc(s, x, key);
    FilledDistinct(s, key, start, step, d);
    assert Keys(d, SlotKey)[i] == k;
    assert Keys(d', SlotKey) == Keys(d, SlotKey);
    forall j | 0 <= j < |d'| ensures Acc(s + [x], key, d'[j].key, start, step) == Some(d'[j].val) {
      AccSnoc(s, x, key, d'[j].key, start, step);
    }
  }

  /** One step of the walk: `d[key(x)]` gets `step` applied, starting from
      `start(x)` when the key is new. */
  method Put<T, K(==), V>(d: seq<Slot<K, V>>, x: T, key: T -> K, start: T -> V, step: (V, T) -> V, ghost s: seq<T>)
    returns (d': seq<Slot<K, V>>)
    requires Filled(s, key, start, step, d)
    ensures Filled(s + [x], key, start, step, d')
  {
    var k := key(x);
    var found := FirstIndex(d, (e: Slot<K, V>) => e.key == k);
    if found.None? {
      assert k !in Keys(d, SlotKey);
      FilledNew(s, x, key, start, step, d);
      d' := d + [Slot(k, step(start(x), x))];
    } else {
      var i := found.value;
      FilledKnown(s, x, key, start, step, d, i);
      d' := d[i := Slot(k, step(d[i].val, x))];
    }
  }
}
