/**
  The contents of a sorted counter as a value: the `std::map<T, uint64_t>` of
  both C++ classes becomes a finite map from key to count, and every update
  the classes make to it is a function here. The classes are proved against
  these functions; the properties of the functions are proved once, here.
 */
module CounterSpec {

  /** The C++ `int` carried by a key-to-count mapping. */
  type Int32 = x: int | -0x8000_0000 <= x < 0x8000_0000

  /** The `std::int64_t` multiplicity taken by `add` and `remove`. */
  type Int64 = x: int | -0x8000_0000_0000_0000 <= x < 0x8000_0000_0000_0000

  /** Largest count that `static_cast<std::int64_t>` carries over unchanged. */
  const MaxInt64: int := 0x7FFF_FFFF_FFFF_FFFF

  /** Each stored key with its count. */
  type Counts = map<int, nat>

  /** Number of occurrences of `k`: its stored count, or 0 when it is not stored. */
  function CountOf(m: Counts, k: int): nat {
    if k in m then m[k] else 0
  }

  /** No stored count is zero: a key whose count would drop to zero is erased. */
  ghost predicate Positive(m: Counts) {
    forall k | k in m :: m[k] > 0
  }

  // ---------------------------------------------------------------------------
  // Smallest and largest key: what `begin()` and `rbegin()` of the ordered map
  // point at.
  // ---------------------------------------------------------------------------

  /** A set is empty or has an element. */
  lemma EmptyOrHasElement(s: set<int>)
    ensures s == {} || exists x :: x in s
  {
    if forall x :: x !in s {
      assert s == {};
    }
  }

  lemma {:induction false} LeastExists(s: set<int>)
    requires s != {}
    ensures exists r :: r in s && forall k | k in s :: r <= k
  {
    EmptyOrHasElement(s);
    var x :| x in s;
    if s == {x} {
      assert forall k | k in s :: x <= k;
    } else {
      LeastExists(s - {x});
      var y :| y in s - {x} && forall k | k in s - {x} :: y <= k;
      forall k | k in s && k != x ensures y <= k {
        assert k in s - {x};
      }
    }
  }

  lemma {:induction false} GreatestExists(s: set<int>)
    requires s != {}
    ensures exists r :: r in s && forall k | k in s :: k <= r
  {
    EmptyOrHasElement(s);
    var x :| x in s;
    if s == {x} {
      assert forall k | k in s :: k <= x;
    } else {
      GreatestExists(s - {x});
      var y :| y in s - {x} && forall k | k in s - {x} :: k <= y;
      forall k | k in s && k != x ensures k <= y {
        assert k in s - {x};
      }
    }
  }

  /** The smallest element of a non-empty set of keys. */
  function Least(s: set<int>): (r: int)
    requires s != {}
    ensures r in s && forall k | k in s :: r <= k
  {
    LeastExists(s);
    var r :| r in s && forall k | k in s :: r <= k;
    r
  }

  /** The largest element of a non-empty set of keys. */
  function Greatest(s: set<int>): (r: int)
    requires s != {}
    ensures r in s && forall k | k in s :: k <= r
  {
    GreatestExists(s);
    var r :| r in s && forall k | k in s :: k <= r;
    r
  }

  // ---------------------------------------------------------------------------
  // The sum of the counts, which `m_size` keeps.
  // ---------------------------------------------------------------------------

  /** Some stored key of a non-empty map. */
  ghost function Pick(m: Counts): (k: int)
    requires |m| > 0
    ensures k in m
  {
    EmptyOrHasElement(m.Keys);
    var k :| k in m;
    k
  }

  /** Sum of all stored counts. */
  ghost function Sum(m: Counts): nat
    decreases |m|
  {
    if |m| == 0 then 0
    else
      var k := Pick(m);
      assert |(m - {k}).Keys| == |m.Keys - {k}| == |m.Keys| - 1;
      m[k] + Sum(m - {k})
  }

  /** Any stored key can be split off the sum, not only the least one. */
  lemma {:induction false} SumSplit(m: Counts, k: int)
    requires k in m
    ensures Sum(m) == m[k] + Sum(m - {k})
    decreases |m|
  {
    var j := Pick(m);
    if j != k {
      assert |(m - {j}).Keys| == |m.Keys - {j}| == |m.Keys| - 1;
      assert |(m - {k}).Keys| == |m.Keys - {k}| == |m.Keys| - 1;
      SumSplit(m - {j}, k);
      SumSplit(m - {k}, j);
      assert m - {j} - {k} == m - {k} - {j};
    }
  }

  /** Setting one key's count changes the sum by the difference of the counts. */
  lemma {:induction false} SumUpdate(m: Counts, k: int, v: nat)
    ensures Sum(m[k := v]) == Sum(m) - CountOf(m, k) + v
  {
    SumSplit(m[k := v], k);
    assert m[k := v] - {k} == m - {k};
    if k in m {
      SumSplit(m, k);
    } else {
      assert m - {k} == m;
    }
  }

  /** A container holding only positive counts is empty exactly when its
      counts sum to zero (the empty/non-empty state is derived, not stored). */
  lemma {:induction false} EmptyIffZeroSum(m: Counts)
    requires Positive(m)
    ensures Sum(m) == 0 <==> m == map[]
  {
    if m != map[] {
      EmptyOrHasElement(m.Keys);
      var k :| k in m;
      SumSplit(m, k);
    }
  }

  /** A zero entry (left by a lookup of an absent key) makes a non-empty
      container whose counts sum to zero. */
  lemma ZeroEntryIsNonEmptyWithZeroSum(k: int)
    ensures map[k := 0] != map[] && Sum(map[k := 0]) == 0
  {
    SumUpdate(map[], k, 0);
  }

  /** The zero entry left by a lookup of a key below every stored key is the
      smallest key from then on, although it has no occurrences. */
  lemma ZeroEntryBecomesLeast(m: Counts, key: int)
    requires forall k | k in m :: key < k
    ensures key in m[key := 0] && m[key := 0][key] == 0
    ensures Least(m[key := 0].Keys) == key
  {
    assert key in m[key := 0].Keys;
    var z := Least(m[key := 0].Keys);
    assert z in m || z == key;
  }

  // ---------------------------------------------------------------------------
  // The updates made by add, remove and extend.
  // ---------------------------------------------------------------------------

  /** The counts after `times` more occurrences of `key`. */
  function Added(m: Counts, key: int, times: nat): Counts {
    m[key := CountOf(m, key) + times]
  }

  /** Adding raises the count of `key` by `times`, stores `key`, changes no
      other key, and keeps the counts positive when `times` is. */
  lemma AddedCounts(m: Counts, key: int, times: nat)
    ensures forall k {:trigger CountOf(Added(m, key, times), k)} :: CountOf(Added(m, key, times), k) == CountOf(m, k) + (if k == key then times else 0)
    ensures Added(m, key, times).Keys == m.Keys + {key}
    ensures Positive(m) && times > 0 ==> Positive(Added(m, key, times))
  {
  }

  /** Adding `times` occurrences raises the sum of the counts by `times`. */
  lemma AddedSum(m: Counts, key: int, times: nat)
    ensures Sum(Added(m, key, times)) == Sum(m) + times
  {
    SumUpdate(m, key, CountOf(m, key) + times);
  }

  /** What removing `times` occurrences of a stored `key` takes off the total:
      `times`, clamped to the stored count. */
  function Debit(m: Counts, key: int, times: nat): (d: nat)
    requires key in m
    ensures d <= m[key] && d <= times
    ensures d == m[key] || d == times
  {
    if m[key] <= times then m[key] else times
  }

  /** The counts after removing `times` occurrences of a stored `key`. */
  function Removed(m: Counts, key: int, times: nat): Counts
    requires key in m
  {
    if m[key] <= times then m - {key} else m[key := m[key] - times]
  }

  /** Removing lowers the count of `key` by the debit, erases `key` exactly
      when `times` reaches its count, changes no other key, and keeps the
      counts positive. */
  lemma RemovedCounts(m: Counts, key: int, times: nat)
    requires key in m
    ensures forall k {:trigger CountOf(Removed(m, key, times), k)} :: CountOf(Removed(m, key, times), k) == CountOf(m, k) - (if k == key then Debit(m, key, times) else 0)
    ensures key in Removed(m, key, times) <==> times < m[key]
    ensures Removed(m, key, times).Keys - {key} == m.Keys - {key}
    ensures Positive(m) ==> Positive(Removed(m, key, times))
  {
  }

  /** Removing lowers the sum of the counts by the debit, not by `times`. */
  lemma RemovedSum(m: Counts, key: int, times: nat)
    requires key in m
    ensures Sum(Removed(m, key, times)) == Sum(m) - Debit(m, key, times)
  {
    if m[key] <= times {
      SumSplit(m, key);
    } else {
      SumUpdate(m, key, m[key] - times);
    }
  }

  /** Adding `times` occurrences of a key and then removing `times` of it
      restores the counts and the total, unless the key held a zero entry. */
  lemma RemoveUndoesAdd(m: Counts, key: int, times: nat)
    requires times > 0
    requires key in m ==> m[key] > 0
    ensures key in Added(m, key, times)
    ensures Debit(Added(m, key, times), key, times) == times
    ensures Removed(Added(m, key, times), key, times) == m
  {
    var r := Removed(Added(m, key, times), key, times);
    AddedCounts(m, key, times);
    RemovedCounts(Added(m, key, times), key, times);
    assert forall k :: CountOf(r, k) == CountOf(m, k);
    assert r.Keys == m.Keys;
  }

  /** With a zero entry for the key the round trip erases the key instead. */
  lemma RemoveAfterAddErasesZeroEntry(m: Counts, key: int, times: nat)
    requires times > 0 && key in m && m[key] == 0
    ensures Removed(Added(m, key, times), key, times) == m - {key} != m
  {
    var r := Removed(Added(m, key, times), key, times);
    AddedCounts(m, key, times);
    RemovedCounts(Added(m, key, times), key, times);
    assert forall k :: CountOf(r, k) == CountOf(m - {key}, k);
    assert key !in m - {key};
  }

  /** The counts after one more occurrence of each item, in order. */
  function Tally(m: Counts, items: seq<int>): Counts
    decreases |items|
  {
    if items == [] then m
    else
      var last := |items| - 1;
      Added(Tally(m, items[..last]), items[last], 1)
  }

  /** Counting the items adds, for every key, its number of occurrences among
      them, and stores exactly the keys already stored and the items. */
  lemma {:induction false} TallyCounts(m: Counts, items: seq<int>)
    ensures forall k {:trigger CountOf(Tally(m, items), k)} :: CountOf(Tally(m, items), k) == CountOf(m, k) + multiset(items)[k]
    ensures forall k {:trigger k in Tally(m, items)} :: k in Tally(m, items) <==> k in m || k in items
    ensures Positive(m) ==> Positive(Tally(m, items))
    decreases |items|
  {
    if items != [] {
      var last := |items| - 1;
      assert items == items[..last] + [items[last]];
      TallyCounts(m, items[..last]);
      AddedCounts(Tally(m, items[..last]), items[last], 1);
    }
  }

  /** One more item: the tally of a longer prefix. */
  lemma TallyStep(m: Counts, items: seq<int>, i: nat)
    requires i < |items|
    ensures Tally(m, items[..i + 1]) == Added(Tally(m, items[..i]), items[i], 1)
  {
    assert items[..i + 1][..i] == items[..i];
  }

  /** Counting the items raises the sum of the counts by their number. */
  lemma {:induction false} TallySum(m: Counts, items: seq<int>)
    ensures Sum(Tally(m, items)) == Sum(m) + |items|
    decreases |items|
  {
    if items != [] {
      var last := |items| - 1;
      TallySum(m, items[..last]);
      AddedSum(Tally(m, items[..last]), items[last], 1);
    }
  }

  /** Counting two runs of items one after the other is counting their
      concatenation: `extend(xs)` then `extend(ys)` is `extend(xs + ys)`. */
  lemma {:induction false} TallyAppend(m: Counts, xs: seq<int>, ys: seq<int>)
    ensures Tally(Tally(m, xs), ys) == Tally(m, xs + ys)
    decreases |ys|
  {
    if ys != [] {
      var last := |ys| - 1;
      TallyAppend(m, xs, ys[..last]);
      assert (xs + ys)[..|xs + ys| - 1] == xs + ys[..last];
      assert (xs + ys)[|xs + ys| - 1] == ys[last];
    } else {
      assert xs + ys == xs;
    }
  }

  /** The counts depend on which items are counted, not on their order: a
      `std::set` and any `std::vector` holding the same items once each give
      the same counter. */
  lemma TallyOrderFree(m: Counts, xs: seq<int>, ys: seq<int>)
    requires multiset(xs) == multiset(ys)
    ensures Tally(m, xs) == Tally(m, ys)
  {
    TallyCounts(m, xs);
    TallyCounts(m, ys);
    var a, b := Tally(m, xs), Tally(m, ys);
    forall k
      ensures k in a <==> k in b
    {
      assert k in xs <==> k in multiset(xs);
      assert k in ys <==> k in multiset(ys);
    }
    forall k | k in a
      ensures a[k] == b[k]
    {
      assert CountOf(a, k) == CountOf(b, k);
    }
  }

  /** A strictly ascending sequence holds each of its elements once. */
  lemma {:induction false} AscendingOccursOnce(ks: seq<int>)
    requires forall i, j | 0 <= i < j < |ks| :: ks[i] < ks[j]
    ensures forall k {:trigger multiset(ks)[k]} :: multiset(ks)[k] == if k in ks then 1 else 0
    decreases |ks|
  {
    if ks != [] {
      var last := |ks| - 1;
      assert ks == ks[..last] + [ks[last]];
      AscendingOccursOnce(ks[..last]);
      assert ks[last] !in ks[..last];
    }
  }

  /** Counting each key of a set once, in ascending order, gives every key
      of the set the count 1 and a total of the set's size. */
  lemma CountEachOnce(items: set<int>)
    ensures forall k {:trigger CountOf(Tally(map[], Ascending(items)), k)} ::
      CountOf(Tally(map[], Ascending(items)), k) == if k in items then 1 else 0
    ensures Sum(Tally(map[], Ascending(items))) == |items|
  {
    var ks := Ascending(items);
    AscendingLists(items);
    TallyCounts(map[], ks);
    TallySum(map[], ks);
    AscendingOccursOnce(ks);
  }

  // ---------------------------------------------------------------------------
  // The mapping constructor: counts stored as given, key by key.
  // ---------------------------------------------------------------------------

  /** The counts stored after visiting the keys `ks` of `items`, each with a
      positive count, storing each count as given. */
  function Stored(items: map<int, Int32>, ks: seq<int>): Counts
    requires forall i | 0 <= i < |ks| :: ks[i] in items && items[ks[i]] > 0
    decreases |ks|
  {
    if ks == [] then map[]
    else
      var last := |ks| - 1;
      Stored(items, ks[..last])[ks[last] := items[ks[last]] as nat]
  }

  /** The counts of the keys `ks` of `items` added up in visiting order. */
  function ValueSum(items: map<int, Int32>, ks: seq<int>): int
    requires forall i | 0 <= i < |ks| :: ks[i] in items
    decreases |ks|
  {
    if ks == [] then 0
    else
      var last := |ks| - 1;
      ValueSum(items, ks[..last]) + items[ks[last]]
  }

  /** Visiting distinct keys stores exactly those keys with their given
      counts, and the counts stored sum to the counts added up on the way. */
  lemma {:induction false} StoredCounts(items: map<int, Int32>, ks: seq<int>)
    requires forall i | 0 <= i < |ks| :: ks[i] in items && items[ks[i]] > 0
    requires forall i, j | 0 <= i < j < |ks| :: ks[i] < ks[j]
    ensures forall k {:trigger k in Stored(items, ks)} :: k in Stored(items, ks) <==> k in ks
    ensures forall k | k in Stored(items, ks) :: Stored(items, ks)[k] == items[k]
    ensures Sum(Stored(items, ks)) == ValueSum(items, ks)
    decreases |ks|
  {
    if ks != [] {
      var last := |ks| - 1;
      var prev := Stored(items, ks[..last]);
      assert Stored(items, ks) == prev[ks[last] := items[ks[last]] as nat];
      assert ValueSum(items, ks) == ValueSum(items, ks[..last]) + items[ks[last]];
      StoredCounts(items, ks[..last]);
      assert ks[last] !in prev by {
        assert ks[last] !in ks[..last];
      }
      forall k
        ensures k in ks <==> k in ks[..last] || k == ks[last]
      {
        assert ks == ks[..last] + [ks[last]];
      }
      SumUpdate(prev, ks[last], items[ks[last]] as nat);
    }
  }

  /** Visiting every key of a mapping whose counts are all positive, in
      ascending order, stores the mapping itself, and the stored counts sum
      to the counts added up on the way. */
  lemma StoreAll(items: map<int, Int32>)
    requires var ks := Ascending(items.Keys);
      forall i | 0 <= i < |ks| :: ks[i] in items && items[ks[i]] > 0
    ensures forall k | k in items :: items[k] > 0
    ensures var ks := Ascending(items.Keys);
      && Stored(items, ks).Keys == items.Keys
      && (forall k | k in items :: Stored(items, ks)[k] == items[k])
      && Sum(Stored(items, ks)) == ValueSum(items, ks)
  {
    AllVisited(items);
    var ks := Ascending(items.Keys);
    AscendingLists(items.Keys);
    StoredCounts(items, ks);
    var stored := Stored(items, ks);
    forall k
      ensures k in stored <==> k in items
    {
      assert k in stored <==> k in ks;
    }
  }

  /** Every key occurs in the ascending enumeration, so a property checked at
      every position holds for every key. */
  lemma AllVisited(items: map<int, Int32>)
    requires var ks := Ascending(items.Keys);
      forall i | 0 <= i < |ks| :: ks[i] in items && items[ks[i]] > 0
    ensures forall k | k in items :: items[k] > 0
  {
    var ks := Ascending(items.Keys);
    AscendingLists(items.Keys);
    forall k | k in items
      ensures items[k] > 0
    {
      assert k in ks;
      var j :| 0 <= j < |ks| && ks[j] == k;
    }
  }

  /** One more key: the stored counts and the sum of a longer prefix. */
  lemma StoredStep(items: map<int, Int32>, ks: seq<int>, i: nat)
    requires i < |ks|
    requires forall j | 0 <= j <= i :: ks[j] in items && items[ks[j]] > 0
    ensures Stored(items, ks[..i + 1]) == Stored(items, ks[..i])[ks[i] := items[ks[i]] as nat]
    ensures ValueSum(items, ks[..i + 1]) == ValueSum(items, ks[..i]) + items[ks[i]]
  {
    assert ks[..i + 1][..i] == ks[..i];
  }

  // ---------------------------------------------------------------------------
  // The ordered view that iteration over the map yields.
  // ---------------------------------------------------------------------------

  /** The elements of a set of keys in ascending order. */
  function Ascending(s: set<int>): seq<int>
    decreases |s|
  {
    if |s| == 0 then []
    else
      var k := Least(s);
      [k] + Ascending(s - {k})
  }

  /** `Ascending` lists every element of the set once, in strictly ascending
      order. */
  lemma {:induction false} AscendingLists(s: set<int>)
    ensures |Ascending(s)| == |s|
    ensures forall k {:trigger k in Ascending(s)} :: k in Ascending(s) <==> k in s
    ensures forall i | 0 <= i < |Ascending(s)| :: Ascending(s)[i] in s
    ensures forall i, j | 0 <= i < j < |Ascending(s)| :: Ascending(s)[i] < Ascending(s)[j]
    decreases |s|
  {
    if |s| != 0 {
      var k := Least(s);
      AscendingLists(s - {k});
      var rest := Ascending(s - {k});
      assert Ascending(s) == [k] + rest;
      forall i | 0 <= i < |rest| ensures k < rest[i] {
        assert rest[i] in s - {k};
      }
    }
  }

  /** The (key, count) pairs in strictly ascending key order. */
  function Entries(m: Counts): (es: seq<(int, nat)>)
    ensures |es| == |m|
    ensures forall k | k in m :: (k, m[k]) in es
    ensures forall i | 0 <= i < |es| :: es[i].0 in m && m[es[i].0] == es[i].1
    ensures forall i, j | 0 <= i < j < |es| :: es[i].0 < es[j].0
  {
    var ks := Ascending(m.Keys);
    AscendingLists(m.Keys);
    var es := seq(|ks|, i requires 0 <= i < |ks| => (ks[i], m[ks[i]]));
    assert forall k | k in m :: (k, m[k]) in es by {
      forall k | k in m ensures (k, m[k]) in es {
        assert k in ks;
        var i :| 0 <= i < |ks| && ks[i] == k;
        assert es[i] == (k, m[k]);
      }
    }
    es
  }
}
