/** Generic sequence vocabulary shared by the whole model: the Python idioms
    the source leans on (dict insertion order, `sorted(..., reverse=True)`,
    `[:n]`, "seen"-set de-duplication, `sum(...)`) stated once as functions
    with their properties proved. */
module Seqs {

  datatype Option<+T> = None | Some(value: T)

  function Min(a: int, b: int): int { if a <= b then a else b }

  function Max(a: int, b: int): int { if a >= b then a else b }

  /** Python's `s[:n]` for a non-negative `n`. */
  function Take<T>(s: seq<T>, n: nat): (r: seq<T>)
    ensures |r| == Min(n, |s|) && r == s[..|r|]
  {
    s[..Min(n, |s|)]
  }

  /** Position of the first element satisfying `p`: Python's
      `next((x for x in s if p(x)), None)` and a search loop with `break`. */
  function FirstIndex<T>(s: seq<T>, p: T -> bool): (r: Option<nat>)
    ensures r.Some? ==> r.value < |s| && p(s[r.value]) && forall j :: 0 <= j < r.value ==> !p(s[j])
    ensures r.None? ==> forall j :: 0 <= j < |s| ==> !p(s[j])
  {
    if s == [] then None
    else if p(s[0]) then Some(0)
    else match FirstIndex(s[1..], p)
      case None => None
      case Some(k) => Some(k + 1)
  }

  ghost predicate Distinct<T>(s: seq<T>) {
    forall i, j :: 0 <= i < j < |s| ==> s[i] != s[j]
  }

  lemma DistinctIndex<T>(s: seq<T>, i: nat, j: nat)
    requires Distinct(s) && i < |s| && j < |s| && s[i] == s[j]
    ensures i == j
  {
  }

  lemma DistinctSnoc<T>(s: seq<T>, x: T)
    requires Distinct(s) && x !in s
    ensures Distinct(s + [x])
  {
    forall i, j | 0 <= i < j < |s| + 1 ensures (s + [x])[i] != (s + [x])[j] {
      if j == |s| {
        assert s[i] in s;
      }
    }
  }

  /** The distinct elements of `s` in order of first occurrence: the key order
      of a Python dict (or `Counter`) filled by walking `s`. */
  function FirstSeen<K(==)>(s: seq<K>): seq<K>
  {
    if s == [] then []
    else
      var p := FirstSeen(s[..|s| - 1]);
      if s[|s| - 1] in p then p else p + [s[|s| - 1]]
  }

  lemma {:induction false} FirstSeenSpec<K>(s: seq<K>)
    ensures Distinct(FirstSeen(s))
    ensures forall x :: x in FirstSeen(s) <==> x in s
  {
    if s != [] {
      var init := s[..|s| - 1];
      FirstSeenSpec(init);
      assert s == init + [s[|s| - 1]];
    }
  }

  /** One more element at the end: the step a dict-filling loop takes. */
  lemma FirstSeenSnoc<K>(s: seq<K>, x: K)
    ensures FirstSeen(s + [x]) == if x in FirstSeen(s) then FirstSeen(s) else FirstSeen(s) + [x]
  {
    assert (s + [x])[..|s|] == s;
  }

  /** The key of every element. */
  function Keys<T, K>(s: seq<T>, key: T -> K): (r: seq<K>)
    ensures |r| == |s| && forall i :: 0 <= i < |s| ==> r[i] == key(s[i])
  {
    if s == [] then [] else Keys(s[..|s| - 1], key) + [key(s[|s| - 1])]
  }

  lemma KeysSnoc<T, K>(s: seq<T>, x: T, key: T -> K)
    ensures Keys(s + [x], key) == Keys(s, key) + [key(x)]
  {
    assert (s + [x])[..|s|] == s;
  }

  // ------------------------------------------------------------------------
  // Stable sorting, descending by a real key: Python's
  // `sorted(xs, key=k, reverse=True)` and `Counter.most_common`.

  ghost predicate SortedDesc<T>(s: seq<T>, key: T -> real) {
    forall i, j :: 0 <= i < j < |s| ==> key(s[i]) >= key(s[j])
  }

  /** One more element of `s` extends its prefix. */
  lemma KeysUpdate<T, K>(s: seq<T>, k: nat, x: T, key: T -> K)
    requires k < |s| && key(x) == key(s[k])
    ensures Keys(s[k := x], key) == Keys(s, key)
  {
  }

  lemma PrefixSnoc<T>(s: seq<T>, j: nat)
    requires j < |s|
    ensures s[..j + 1] == s[..j] + [s[j]]
  {
  }

  lemma ConcatSnoc<T>(a: seq<T>, b: seq<T>, x: T)
    ensures a + (b + [x]) == (a + b) + [x]
  {
  }

  /** The top `n` are elements of `s`. */
  lemma TopFrom<T>(s: seq<T>, score: T -> real, n: nat)
    ensures forall k :: 0 <= k < |Take(SortDesc(s, score), n)| ==> Take(SortDesc(s, score), n)[k] in s
  {
    var t := Take(SortDesc(s, score), n);
    TopSpec(s, score, n);
    forall k | 0 <= k < |t| ensures t[k] in s {
      assert t[k] in multiset(t);
    }
  }

  /** A slice of a sorted sequence is sorted. */
  lemma SortedSlice<T>(s: seq<T>, key: T -> real, a: nat, b: nat)
    requires SortedDesc(s, key) && a <= b <= |s|
    ensures SortedDesc(s[a..b], key)
  {
    forall i, j | 0 <= i < j < b - a ensures key(s[a..b][i]) >= key(s[a..b][j]) {
      assert s[a..b][i] == s[a + i] && s[a..b][j] == s[a + j];
    }
  }

  /** Inserts `x` behind every element whose key is at least `x`'s, so equal
      keys keep their input order. */
  function InsertDesc<T>(x: T, s: seq<T>, key: T -> real): (r: seq<T>)
    ensures |r| == |s| + 1
  {
    if s == [] then [x]
    else if key(s[0]) >= key(x) then [s[0]] + InsertDesc(x, s[1..], key)
    else [x] + s
  }

  function SortDesc<T>(s: seq<T>, key: T -> real): (r: seq<T>)
    ensures |r| == |s|
  {
    if s == [] then []
    else InsertDesc(s[|s| - 1], SortDesc(s[..|s| - 1], key), key)
  }

  lemma {:induction false} InsertDescCount<T>(x: T, s: seq<T>, key: T -> real)
    ensures multiset(InsertDesc(x, s, key)) == multiset(s) + multiset{x}
  {
    if s != [] && key(s[0]) >= key(x) {
      InsertDescCount(x, s[1..], key);
      assert s == [s[0]] + s[1..];
    }
  }

  lemma {:induction false} InsertDescBound<T>(x: T, s: seq<T>, key: T -> real, b: real)
    requires b >= key(x)
    requires forall k :: 0 <= k < |s| ==> b >= key(s[k])
    ensures forall k :: 0 <= k < |s| + 1 ==> b >= key(InsertDesc(x, s, key)[k])
  {
    if s != [] && key(s[0]) >= key(x) {
      InsertDescBound(x, s[1..], key, b);
    }
  }

  lemma {:induction false} InsertDescSorted<T>(x: T, s: seq<T>, key: T -> real)
    requires SortedDesc(s, key)
    ensures SortedDesc(InsertDesc(x, s, key), key)
  {
    if s != [] {
      var r := InsertDesc(x, s, key);
      if key(s[0]) >= key(x) {
        var rest := InsertDesc(x, s[1..], key);
        InsertDescSorted(x, s[1..], key);
        InsertDescBound(x, s[1..], key, key(s[0]));
        assert r == [s[0]] + rest;
        assert forall k :: 0 < k < |r| ==> r[k] == rest[k - 1];
      } else {
        assert r == [x] + s;
        assert forall k :: 0 < k < |r| ==> r[k] == s[k - 1];
      }
    }
  }

  lemma InsertDescSpec<T>(x: T, s: seq<T>, key: T -> real)
    requires SortedDesc(s, key)
    ensures SortedDesc(InsertDesc(x, s, key), key)
    ensures multiset(InsertDesc(x, s, key)) == multiset(s) + multiset{x}
  {
    InsertDescCount(x, s, key);
    InsertDescSorted(x, s, key);
  }

  /** Sorting yields a non-increasing permutation of its input. */
  lemma {:induction false} SortDescSpec<T>(s: seq<T>, key: T -> real)
    ensures SortedDesc(SortDesc(s, key), key)
    ensures multiset(SortDesc(s, key)) == multiset(s)
    ensures |SortDesc(s, key)| == |s|
  {
    if s != [] {
      var init := s[..|s| - 1];
      SortDescSpec(init, key);
      InsertDescSpec(s[|s| - 1], SortDesc(init, key), key);
      assert s == init + [s[|s| - 1]];
    }
  }

  /** `sorted(s, key, reverse=True)[:n]`: at most `n` entries, taken in
      non-increasing order from `s`, and nothing left behind outranks them. */
  lemma TopSpec<T>(s: seq<T>, key: T -> real, n: nat)
    ensures |Take(SortDesc(s, key), n)| == Min(n, |s|)
    ensures SortedDesc(Take(SortDesc(s, key), n), key)
    ensures multiset(Take(SortDesc(s, key), n)) <= multiset(s)
    ensures forall i, j :: 0 <= i < Min(n, |s|) <= j < |s| ==> key(SortDesc(s, key)[i]) >= key(SortDesc(s, key)[j])
  {
    SortDescSpec(s, key);
    PrefixMultiset(SortDesc(s, key), Min(n, |s|));
  }

  lemma PrefixMultiset<T>(t: seq<T>, k: nat)
    requires k <= |t|
    ensures multiset(t[..k]) <= multiset(t)
  {
    assert t == t[..k] + t[k..];
  }

  /** An element whose key the top `n` miss scores no higher than any of
      them, and is missed only when there are `n` of them. */
  lemma TopLeftOut<T, K>(s: seq<T>, score: T -> real, key: T -> K, n: nat, x: T)
    requires x in s && key(x) !in Keys(Take(SortDesc(s, score), n), key)
    ensures |Take(SortDesc(s, score), n)| == n
    ensures forall k :: 0 <= k < n ==> score(Take(SortDesc(s, score), n)[k]) >= score(x)
  {
    var sorted := SortDesc(s, score);
    TopSpec(s, score, n);
    SortDescSpec(s, score);
    assert x in multiset(sorted);
    var p :| 0 <= p < |sorted| && sorted[p] == x;
    forall q | 0 <= q < Min(n, |s|) ensures sorted[q] != x {
      assert Keys(Take(sorted, n), key)[q] == key(sorted[q]);
    }
    assert p >= Min(n, |s|);
  }

  /** An element the top `n` miss scores no higher than any of them, and
      is missed only when there are `n` of them. */
  lemma TopExcluded<T>(s: seq<T>, score: T -> real, n: nat, x: T)
    requires x in s && x !in Take(SortDesc(s, score), n)
    ensures |Take(SortDesc(s, score), n)| == n
    ensures forall k :: 0 <= k < n ==> score(Take(SortDesc(s, score), n)[k]) >= score(x)
  {
    var sorted := SortDesc(s, score);
    TopSpec(s, score, n);
    SortDescSpec(s, score);
    assert x in multiset(sorted);
    var p :| 0 <= p < |sorted| && sorted[p] == x;
    assert p >= Min(n, |s|);
  }

  /** The keys after inserting `x` are `x`'s key and the keys of `s`. */
  lemma {:induction false} InsertDescKeySet<T, K>(x: T, s: seq<T>, score: T -> real, key: T -> K)
    ensures forall k :: k in Keys(InsertDesc(x, s, score), key) ==> k == key(x) || k in Keys(s, key)
  {
    if s != [] && score(s[0]) >= score(x) {
      var t := s[1..];
      InsertDescKeySet(x, t, score, key);
      var r := InsertDesc(x, s, score);
      var rest := InsertDesc(x, t, score);
      assert r == [s[0]] + rest;
      forall k | k in Keys(r, key) ensures k == key(x) || k in Keys(s, key) {
        var i :| 0 <= i < |r| && Keys(r, key)[i] == k;
        if i == 0 {
          assert Keys(s, key)[0] == k;
        } else {
          assert Keys(rest, key)[i - 1] == k;
          if k in Keys(t, key) {
            var j :| 0 <= j < |t| && Keys(t, key)[j] == k;
            assert Keys(s, key)[j + 1] == k;
          }
        }
      }
    } else if s != [] {
      var r := InsertDesc(x, s, score);
      assert r == [x] + s;
      forall k | k in Keys(r, key) ensures k == key(x) || k in Keys(s, key) {
        var i :| 0 <= i < |r| && Keys(r, key)[i] == k;
        if i > 0 {
          assert Keys(s, key)[i - 1] == k;
        }
      }
    }
  }

  /** Inserting an element whose key is new keeps the keys distinct. */
  lemma {:induction false} InsertDescKeys<T, K>(x: T, s: seq<T>, score: T -> real, key: T -> K)
    requires Distinct(Keys(s, key)) && key(x) !in Keys(s, key)
    ensures Distinct(Keys(InsertDesc(x, s, score), key))
  {
    var r := InsertDesc(x, s, score);
    if s != [] && score(s[0]) >= score(x) {
      var t := s[1..];
      assert forall k :: 0 <= k < |t| ==> Keys(t, key)[k] == Keys(s, key)[k + 1];
      InsertDescKeys(x, t, score, key);
      InsertDescKeySet(x, t, score, key);
      var rest := InsertDesc(x, t, score);
      assert r == [s[0]] + rest;
      assert key(s[0]) !in Keys(t, key);
      assert key(s[0]) != key(x);
      forall i, j | 0 <= i < j < |r| ensures Keys(r, key)[i] != Keys(r, key)[j] {
        if i == 0 {
          assert Keys(rest, key)[j - 1] in Keys(rest, key);
        } else {
          assert Keys(rest, key)[i - 1] != Keys(rest, key)[j - 1];
        }
      }
    } else {
      assert r == [x] + s;
      forall i, j | 0 <= i < j < |r| ensures Keys(r, key)[i] != Keys(r, key)[j] {
        if i == 0 {
          assert Keys(s, key)[j - 1] == key(r[j]);
        } else {
          assert Keys(s, key)[i - 1] != Keys(s, key)[j - 1];
        }
      }
    }
  }

  /** Sorting a list with distinct keys keeps them distinct. */
  lemma {:induction false} SortDescKeys<T, K>(s: seq<T>, score: T -> real, key: T -> K)
    requires Distinct(Keys(s, key))
    ensures Distinct(Keys(SortDesc(s, score), key))
  {
    if s != [] {
      var init := s[..|s| - 1];
      var x := s[|s| - 1];
      assert forall k :: 0 <= k < |init| ==> Keys(init, key)[k] == Keys(s, key)[k];
      SortDescKeys(init, score, key);
      SortDescKeySet(init, score, key);
      var t := SortDesc(init, score);
      assert key(x) !in Keys(init, key);
      InsertDescKeys(x, t, score, key);
    }
  }

  /** Sorting keeps the set of keys. */
  lemma {:induction false} SortDescKeySet<T, K>(s: seq<T>, score: T -> real, key: T -> K)
    ensures forall k :: k in Keys(SortDesc(s, score), key) ==> k in Keys(s, key)
  {
    if s != [] {
      var init := s[..|s| - 1];
      SortDescKeySet(init, score, key);
      InsertDescKeySet(s[|s| - 1], SortDesc(init, score), score, key);
      assert Keys(s, key) == Keys(init, key) + [key(s[|s| - 1])];
    }
  }

  /** A prefix of a list with distinct keys has distinct keys. */
  lemma TakeKeys<T, K>(s: seq<T>, n: nat, key: T -> K)
    requires Distinct(Keys(s, key))
    ensures Distinct(Keys(Take(s, n), key))
  {
    var t := Take(s, n);
    forall i, j | 0 <= i < j < |t| ensures Keys(t, key)[i] != Keys(t, key)[j] {
      assert Keys(s, key)[i] != Keys(s, key)[j];
    }
  }

  /** The elements satisfying `p`, in order: `[x for x in s if p(x)]`. */
  function Filter<T>(s: seq<T>, p: T -> bool): (r: seq<T>)
    ensures |r| <= |s|
    ensures forall k :: 0 <= k < |r| ==> r[k] in s && p(r[k])
    ensures forall k :: 0 <= k < |s| && p(s[k]) ==> s[k] in r
  {
    if s == [] then []
    else Filter(s[..|s| - 1], p) + (if p(s[|s| - 1]) then [s[|s| - 1]] else [])
  }

  // ------------------------------------------------------------------------
  // "seen"-set de-duplication with a cap, as in
  //     for x in s:
  //         if key(x) not in seen and key(x) not in exclude: seen.add(...); out.append(x)
  // The walk stops once `cap` entries are out.

  function FirstUnique<T>(s: seq<T>, key: T -> int, exclude: set<int>, cap: nat): seq<T>
  {
    if s == [] then []
    else
      var d := FirstUnique(s[..|s| - 1], key, exclude, cap);
      var x := s[|s| - 1];
      if |d| >= cap || key(x) in exclude || key(x) in Keys(d, key) then d else d + [x]
  }

  lemma FirstUniqueSnoc<T>(s: seq<T>, x: T, key: T -> int, exclude: set<int>, cap: nat)
    ensures FirstUnique(s + [x], key, exclude, cap) ==
            var d := FirstUnique(s, key, exclude, cap);
            if |d| >= cap || key(x) in exclude || key(x) in Keys(d, key) then d else d + [x]
  {
    assert (s + [x])[..|s|] == s;
  }

  /** The de-duplicated list has distinct keys, none excluded, at most `cap`
      entries, all drawn from `s`; and it is complete: an absent key of `s`
      was excluded or the cap was reached. */
  lemma FirstUniqueSpec<T>(s: seq<T>, key: T -> int, exclude: set<int>, cap: nat)
    ensures var r := FirstUnique(s, key, exclude, cap);
      && Distinct(Keys(r, key))
      && (forall i :: 0 <= i < |r| ==> key(r[i]) !in exclude)
      && |r| <= cap
      && (forall i :: 0 <= i < |r| ==> r[i] in s)
      && (forall i :: 0 <= i < |s| ==> key(s[i]) in exclude || key(s[i]) in Keys(r, key) || |r| == cap)
  {
    FirstUniqueSound(s, key, exclude, cap);
    FirstUniqueComplete(s, key, exclude, cap);
  }

  lemma {:induction false} FirstUniqueSound<T>(s: seq<T>, key: T -> int, exclude: set<int>, cap: nat)
    ensures var r := FirstUnique(s, key, exclude, cap);
      && Distinct(Keys(r, key))
      && (forall i :: 0 <= i < |r| ==> key(r[i]) !in exclude)
      && |r| <= cap
      && (forall i :: 0 <= i < |r| ==> r[i] in s)
  {
    if s != [] {
      var init := s[..|s| - 1];
      var x := s[|s| - 1];
      FirstUniqueSound(init, key, exclude, cap);
      var d := FirstUnique(init, key, exclude, cap);
      var r := FirstUnique(s, key, exclude, cap);
      PrefixSnoc(s, |s| - 1);
      assert s[..|s|] == s;
      if !(|d| >= cap || key(x) in exclude || key(x) in Keys(d, key)) {
        assert r == d + [x];
        KeysSnoc(d, x, key);
        DistinctSnoc(Keys(d, key), key(x));
        forall i | 0 <= i < |r| ensures r[i] in s {
          if i < |d| {
            assert r[i] == d[i];
          }
        }
      }
    }
  }

  lemma {:induction false} FirstUniqueComplete<T>(s: seq<T>, key: T -> int, exclude: set<int>, cap: nat)
    ensures var r := FirstUnique(s, key, exclude, cap);
      forall i :: 0 <= i < |s| ==> key(s[i]) in exclude || key(s[i]) in Keys(r, key) || |r| == cap
  {
    if s != [] {
      var init := s[..|s| - 1];
      var x := s[|s| - 1];
      FirstUniqueComplete(init, key, exclude, cap);
      FirstUniqueSound(init, key, exclude, cap);
      var d := FirstUnique(init, key, exclude, cap);
      var r := FirstUnique(s, key, exclude, cap);
      if !(|d| >= cap || key(x) in exclude || key(x) in Keys(d, key)) {
        assert r == d + [x];
        KeysSnoc(d, x, key);
        forall i | 0 <= i < |s| ensures key(s[i]) in exclude || key(s[i]) in Keys(r, key) || |r| == cap {
          if i < |s| - 1 {
            assert s[i] == init[i];
            if key(s[i]) in Keys(d, key) {
              var k :| 0 <= k < |d| && Keys(d, key)[k] == key(s[i]);
              assert Keys(r, key)[k] == key(s[i]);
            }
          }
        }
      } else {
        assert r == d;
        forall i | 0 <= i < |s| ensures key(s[i]) in exclude || key(s[i]) in Keys(r, key) || |r| == cap {
          if i < |s| - 1 {
            assert s[i] == init[i];
          }
        }
      }
    }
  }

  /** One step of the walk, on a prefix of `s`. */
  lemma FirstUniqueStep<T>(s: seq<T>, i: nat, key: T -> int, exclude: set<int>, cap: nat, d: seq<T>)
    requires i < |s| && d == FirstUnique(s[..i], key, exclude, cap)
    ensures FirstUnique(s[..i + 1], key, exclude, cap) ==
            if |d| >= cap || key(s[i]) in exclude || key(s[i]) in Keys(d, key) then d else d + [s[i]]
  {
    FirstUniqueSnoc(s[..i], s[i], key, exclude, cap);
    assert s[..i + 1] == s[..i] + [s[i]];
  }

  /** One step of the walk, testing the keys seen so far as a set. */
  lemma FirstUniqueSeen<T>(s: seq<T>, i: nat, key: T -> int, exclude: set<int>, cap: nat, d: seq<T>, seen: set<int>)
    requires i < |s| && d == FirstUnique(s[..i], key, exclude, cap) && seen == KeySet(d, key)
    ensures FirstUnique(s[..i + 1], key, exclude, cap) ==
            if |d| >= cap || key(s[i]) in exclude || key(s[i]) in seen then d else d + [s[i]]
    ensures KeySet(d + [s[i]], key) == seen + {key(s[i])}
  {
    FirstUniqueStep(s, i, key, exclude, cap, d);
    KeySetSnoc(d, s[i], key);
  }

  /** The set of keys of `s`. */
  function KeySet<T>(s: seq<T>, key: T -> int): (r: set<int>)
    ensures forall v :: v in r <==> v in Keys(s, key)
  {
    if s == [] then {}
    else
      assert Keys(s, key) == Keys(s[..|s| - 1], key) + [key(s[|s| - 1])];
      KeySet(s[..|s| - 1], key) + {key(s[|s| - 1])}
  }

  lemma KeySetSnoc<T>(s: seq<T>, x: T, key: T -> int)
    ensures KeySet(s + [x], key) == KeySet(s, key) + {key(x)}
  {
    assert (s + [x])[..|s|] == s;
  }

  /** Once the cap is reached the walk adds nothing more. */
  lemma {:induction false} FirstUniqueFull<T>(s: seq<T>, i: nat, key: T -> int, exclude: set<int>, cap: nat)
    requires i <= |s| && |FirstUnique(s[..i], key, exclude, cap)| >= cap
    ensures FirstUnique(s, key, exclude, cap) == FirstUnique(s[..i], key, exclude, cap)
    decreases |s| - i
  {
    if i < |s| {
      FirstUniqueSnoc(s[..i], s[i], key, exclude, cap);
      assert s[..i + 1] == s[..i] + [s[i]];
      FirstUniqueFull(s, i + 1, key, exclude, cap);
    } else {
      assert s[..i] == s;
    }
  }

  /** Every element of the de-duplicated prefix of `s` scores at least as
      high as the last element of `s`, when `s` is sorted. */
  lemma FirstUniqueAbove<T>(s: seq<T>, key: T -> int, exclude: set<int>, cap: nat, score: T -> real, d: seq<T>)
    requires s != [] && SortedDesc(s, score)
    requires d == FirstUnique(s[..|s| - 1], key, exclude, cap)
    ensures forall j :: 0 <= j < |d| ==> score(d[j]) >= score(s[|s| - 1])
  {
    var init := s[..|s| - 1];
    FirstUniqueSound(init, key, exclude, cap);
    forall j | 0 <= j < |d| ensures score(d[j]) >= score(s[|s| - 1]) {
      var p :| 0 <= p < |init| && init[p] == d[j];
      assert s[p] == init[p];
    }
  }

  /** On a list sorted by `score`, de-duplication keeps the order. */
  lemma {:induction false} FirstUniqueSorted<T>(s: seq<T>, key: T -> int, exclude: set<int>, cap: nat, score: T -> real)
    requires SortedDesc(s, score)
    ensures SortedDesc(FirstUnique(s, key, exclude, cap), score)
  {
    if s != [] {
      var init := s[..|s| - 1];
      assert SortedDesc(init, score);
      FirstUniqueSorted(init, key, exclude, cap, score);
      var d := FirstUnique(init, key, exclude, cap);
      FirstUniqueAbove(s, key, exclude, cap, score, d);
      var r := FirstUnique(s, key, exclude, cap);
      if r != d {
        assert r == d + [s[|s| - 1]];
        forall i, j | 0 <= i < j < |r| ensures score(r[i]) >= score(r[j]) {
          assert r[i] == d[i];
          if j < |d| {
            assert r[j] == d[j];
          } else {
            assert r[j] == s[|s| - 1];
          }
        }
      }
    }
  }

  /** On a list sorted by `score`, an element whose key was neither excluded
      nor kept scores no higher than any kept entry. */
  lemma {:induction false} FirstUniqueLeftOut<T>(s: seq<T>, key: T -> int, exclude: set<int>, cap: nat, score: T -> real, i: nat)
    requires SortedDesc(s, score) && i < |s| && key(s[i]) !in exclude
    requires key(s[i]) !in Keys(FirstUnique(s, key, exclude, cap), key)
    ensures var r := FirstUnique(s, key, exclude, cap);
      forall j :: 0 <= j < |r| ==> score(r[j]) >= score(s[i])
  {
    var init := s[..|s| - 1];
    var x := s[|s| - 1];
    var d := FirstUnique(init, key, exclude, cap);
    var r := FirstUnique(s, key, exclude, cap);
    FirstUniqueAbove(s, key, exclude, cap, score, d);
    KeysSnoc(d, x, key);
    assert forall k :: 0 <= k < |d| ==> r[k] == d[k];
    if i == |s| - 1 {
      assert key(x) in Keys(d + [x], key);
      assert r == d;
    } else {
      assert s[i] == init[i];
      forall v | v in Keys(d, key) ensures v in Keys(r, key) {
        var k :| 0 <= k < |d| && Keys(d, key)[k] == v;
        assert Keys(r, key)[k] == v;
      }
      assert SortedDesc(init, score);
      FirstUniqueLeftOut(init, key, exclude, cap, score, i);
      FirstUniqueComplete(init, key, exclude, cap);
      assert r == d;
    }
  }

  /** On a list sorted by `score`, the entry kept for a key is a best-scoring
      one among all the entries with that key. */
  lemma {:induction false} FirstUniqueKeepsBest<T>(s: seq<T>, key: T -> int, exclude: set<int>, cap: nat, score: T -> real)
    requires SortedDesc(s, score)
    ensures var r := FirstUnique(s, key, exclude, cap);
      forall j, i :: 0 <= j < |r| && 0 <= i < |s| && key(s[i]) == key(r[j]) ==> score(r[j]) >= score(s[i])
  {
    if s != [] {
      var init := s[..|s| - 1];
      var x := s[|s| - 1];
      assert SortedDesc(init, score);
      FirstUniqueKeepsBest(init, key, exclude, cap, score);
      FirstUniqueSpec(init, key, exclude, cap);
      var d := FirstUnique(init, key, exclude, cap);
      FirstUniqueAbove(s, key, exclude, cap, score, d);
      var r := FirstUnique(s, key, exclude, cap);
      forall j, i | 0 <= j < |r| && 0 <= i < |s| && key(s[i]) == key(r[j])
        ensures score(r[j]) >= score(s[i])
      {
        if j == |d| {
          // x was appended: its key was new and the cap not reached, so no
          // earlier element has it
          assert r[j] == x;
        } else if i < |s| - 1 {
          assert s[i] == init[i];
        }
      }
    }
  }

  // ------------------------------------------------------------------------
  // Sums.

  function SumOf<T>(s: seq<T>, f: T -> real): real
  {
    if s == [] then 0.0 else SumOf(s[..|s| - 1], f) + f(s[|s| - 1])
  }

  lemma {:induction false} SumOfAppend<T>(a: seq<T>, b: seq<T>, f: T -> real)
    ensures SumOf(a + b, f) == SumOf(a, f) + SumOf(b, f)
  {
    if b == [] {
      assert a + b == a;
    } else {
      var b0 := b[..|b| - 1];
      SumOfAppend(a, b0, f);
      assert (a + b)[..|a + b| - 1] == a + b0;
    }
  }
}
