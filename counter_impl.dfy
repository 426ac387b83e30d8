/**
  `SortedCounter<T>` of src/sortedcounter/impl.cpp, the class that
  impl.cpp's own `NB_MODULE` block binds, with `T = int`. It differs from the
  header's class in the exceptions it throws, which nanobind turns into
  Python's `KeyError` (argument errors) and `ValueError` (an empty counter),
  and in its constructors and `extend` overloads.
 */
module CounterImpl {
  import opened Results
  import opened CounterSpec

  /** The two nanobind exception classes the class throws, with their
      messages. */
  datatype Error = KeyError(message: string) | ValueError(message: string)

  const AddNonPositive := "Cannot add <= 0 items to container"
  const RemoveNonPositive := "Cannot remove <= 0 items to container"
  const RemoveMissing := "Cannot remove non-existing value"
  const CountNonPositive := "The count must be > 0."
  const Empty := "Container is empty!"

  class SortedCounter {
    /** `m_size`: the number of occurrences of all keys together. */
    var total: nat
    /** `m_container`: each stored key with its count. */
    var counts: Counts

    /** The running total is the sum of the stored counts. Positivity of the
        counts is kept apart, in `Positive(counts)`, because `Get` may store
        a zero count. */
    ghost predicate Valid()
      reads this
    {
      total == Sum(counts)
    }

    /** `SortedCounter()`: no keys, total 0. */
    constructor ()
      ensures Valid() && Positive(counts)
      ensures counts == map[] && total == 0
    {
      total := 0;
      counts := map[];
    }

    /** The sequence constructor, bound to Python for a `std::vector`: every
        item adds one occurrence. */
    constructor FromItems(items: seq<int>)
      ensures Valid() && Positive(counts)
      ensures counts == Tally(map[], items)
      ensures forall k :: CountOf(counts, k) == multiset(items)[k]
      ensures total == |items|
    {
      total := 0;
      counts := map[];
      new;
      var i := 0;
      while i < |items|
        invariant 0 <= i <= |items|
        invariant counts == Tally(map[], items[..i])
        invariant total == i
      {
        var item := items[i];
        if item !in counts {
          counts := counts[item := 1];
        } else {
          counts := counts[item := counts[item] + 1];
        }
        total := total + 1;
        TallyStep(map[], items, i);
        i := i + 1;
      }
      assert items[..i] == items;
      TallyCounts(map[], items);
      TallySum(map[], items);
    }

    /** The `std::initializer_list` constructor, a separate copy of the same
        loop: every item of the brace list adds one occurrence. */
    constructor FromList(items: seq<int>)
      ensures Valid() && Positive(counts)
      ensures counts == Tally(map[], items)
      ensures forall k :: CountOf(counts, k) == multiset(items)[k]
      ensures total == |items|
    {
      total := 0;
      counts := map[];
      new;
      var i := 0;
      while i < |items|
        invariant 0 <= i <= |items|
        invariant counts == Tally(map[], items[..i])
        invariant total == i
      {
        var item := items[i];
        if item !in counts {
          counts := counts[item := 1];
        } else {
          counts := counts[item := counts[item] + 1];
        }
        total := total + 1;
        TallyStep(map[], items, i);
        i := i + 1;
      }
      assert items[..i] == items;
      TallyCounts(map[], items);
      TallySum(map[], items);
    }

    /** The `std::unordered_map<T, int>` constructor: it throws `KeyError` at
        the first count that is not positive, and otherwise stores every count
        as given. The hash table's visiting order is unspecified; the model
        visits the keys in ascending order, and neither the outcome nor the
        stored counts depend on the order. */
    static method FromCounts(items: map<int, Int32>) returns (r: Result<SortedCounter, Error>)
      ensures r.Failure? <==> exists k | k in items :: items[k] <= 0
      ensures r.Failure? ==> r.error == KeyError(CountNonPositive)
      ensures r.Success? ==> fresh(r.value) && r.value.Valid() && Positive(r.value.counts)
      ensures r.Success? ==> r.value.counts.Keys == items.Keys
      ensures r.Success? ==> forall k | k in items :: r.value.counts[k] == items[k]
    {
      var c := new SortedCounter();
      var ks := Ascending(items.Keys);
      AscendingLists(items.Keys);
      var i := 0;
      while i < |ks|
        invariant 0 <= i <= |ks|
        invariant fresh(c)
        invariant forall j | 0 <= j < i :: items[ks[j]] > 0
        invariant c.counts == Stored(items, ks[..i])
        invariant c.total == ValueSum(items, ks[..i])
      {
        var key := ks[i];
        var value := items[key];
        if value <= 0 {
          return Failure(KeyError(CountNonPositive));
        }
        StoredStep(items, ks, i);
        c.counts := c.counts[key := value];
        c.total := c.total + value;
        i := i + 1;
      }
      assert ks[..i] == ks;
      StoreAll(items);
      return Success(c);
    }

    /** `add(key, times)`: rejects `times <= 0`; otherwise `times` more
        occurrences of `key`. */
    method Add(key: int, times: Int64) returns (status: Outcome<Error>)
      requires Valid()
      modifies this
      ensures Valid()
      ensures times <= 0 ==> status == Fail(KeyError(AddNonPositive))
      ensures times <= 0 ==> counts == old(counts) && total == old(total)
      ensures times > 0 ==> status == Pass
      ensures times > 0 ==> counts == Added(old(counts), key, times) && total == old(total) + times
      ensures Positive(old(counts)) ==> Positive(counts)
    {
      if times <= 0 {
        return Fail(KeyError(AddNonPositive));
      }
      AddedSum(counts, key, times);
      var present := key in counts;
      if !present {
        counts := counts[key := times];
      } else {
        counts := counts[key := counts[key] + times];
      }
      total := total + times;
      return Pass;
    }

    /** `remove(key, times)`: rejects `times <= 0` and an absent key;
        otherwise erases the key and debits its whole count when `times`
        reaches that count, and debits `times` when it does not. The stored
        count must fit the `std::int64_t` it is cast to for the comparison. */
    method Remove(key: int, times: Int64) returns (status: Outcome<Error>)
      requires Valid()
      requires key in counts ==> counts[key] <= MaxInt64
      modifies this
      ensures Valid()
      ensures times <= 0 ==> status == Fail(KeyError(RemoveNonPositive))
      ensures times > 0 && key !in old(counts) ==> status == Fail(KeyError(RemoveMissing))
      ensures status.Fail? ==> counts == old(counts) && total == old(total)
      ensures times > 0 && key in old(counts) ==> status == Pass
      ensures status.Pass? ==> key in old(counts) && times > 0
      ensures status.Pass? ==> counts == Removed(old(counts), key, times)
      ensures status.Pass? ==> total == old(total) - Debit(old(counts), key, times)
      ensures Positive(old(counts)) ==> Positive(counts)
    {
      if times <= 0 {
        return Fail(KeyError(RemoveNonPositive));
      }
      var present := key in counts;
      if !present {
        return Fail(KeyError(RemoveMissing));
      }
      RemovedSum(counts, key, times);
      if counts[key] - times <= 0 {
        var remaining := counts[key];
        counts := counts - {key};
        total := total - remaining;
      } else {
        counts := counts[key := counts[key] - times];
        total := total - times;
      }
      return Pass;
    }

    /** `extend(items)`: one more occurrence of every item, in order. */
    method Extend(items: seq<int>)
      requires Valid()
      modifies this
      ensures Valid()
      ensures counts == Tally(old(counts), items)
      ensures forall k :: CountOf(counts, k) == CountOf(old(counts), k) + multiset(items)[k]
      ensures total == old(total) + |items|
      ensures Positive(old(counts)) ==> Positive(counts)
    {
      ghost var start := counts;
      ghost var startTotal := total;
      var i := 0;
      while i < |items|
        invariant 0 <= i <= |items|
        invariant counts == Tally(start, items[..i])
        invariant total == startTotal + i
      {
        var item := items[i];
        var present := item in counts;
        if !present {
          counts := counts[item := 1];
        } else {
          counts := counts[item := counts[item] + 1];
        }
        total := total + 1;
        TallyStep(start, items, i);
        i := i + 1;
      }
      assert items[..i] == items;
      TallySum(start, items);
      TallyCounts(start, items);
    }

    /** `maximum()`: the largest stored key, or `ValueError` when no key is
        stored. */
    function Maximum(): (r: Result<int, Error>)
      reads this
      ensures r.Failure? <==> counts == map[]
      ensures r.Failure? ==> r.error == ValueError(Empty)
      ensures r.Success? ==> r.value in counts && forall k | k in counts :: k <= r.value
    {
      if |counts| == 0 then Failure(ValueError(Empty)) else Success(Greatest(counts.Keys))
    }

    /** `minimum()`: the smallest stored key, or `ValueError` when no key is
        stored. */
    function Minimum(): (r: Result<int, Error>)
      reads this
      ensures r.Failure? <==> counts == map[]
      ensures r.Failure? ==> r.error == ValueError(Empty)
      ensures r.Success? ==> r.value in counts && forall k | k in counts :: r.value <= k
    {
      if |counts| == 0 then Failure(ValueError(Empty)) else Success(Least(counts.Keys))
    }

    /** `size()`: the number of occurrences, not the number of distinct keys. */
    function Size(): (n: nat)
      reads this
      requires Valid()
      ensures n == Sum(counts)
    {
      total
    }

    /** `data()`: the stored map, seen as it iterates, in ascending key order. */
    function Data(): (view: seq<(int, nat)>)
      reads this
      ensures |view| == |counts|
      ensures forall k | k in counts :: (k, counts[k]) in view
      ensures forall i | 0 <= i < |view| :: view[i].0 in counts && counts[view[i].0] == view[i].1
      ensures forall i, j | 0 <= i < j < |view| :: view[i].0 < view[j].0
    {
      Entries(counts)
    }

    /** `get(key)`: the count of `key`, through `operator[]`, which first
        stores a zero count for an absent key. The total is unchanged, but
        the counts stop being all positive exactly when the key was absent. */
    method Get(key: int) returns (n: nat)
      requires Valid()
      modifies this
      ensures Valid() && total == old(total)
      ensures n == CountOf(old(counts), key)
      ensures counts == if key in old(counts) then old(counts) else old(counts)[key := 0]
      ensures Positive(counts) <==> Positive(old(counts)) && key in old(counts)
    {
      if key !in counts {
        SumUpdate(counts, key, 0);
        counts := counts[key := 0];
      }
      n := counts[key];
    }
  }
}
