# SortedCounter, modelled in Dafny

`SortedCounter<T>` is an ordered multiset, or counter, from the repository
sortedcounter-cpp. It stores a `std::map<T, std::uint64_t>` from each
distinct key to its number of occurrences, plus a running total `m_size`.

Its operations:
- constructors count the items of a sequence, or copy a key-to-count mapping whose counts must be positive;
- `add(key, times)` and `remove(key, times)` raise or lower one key's count;
- `remove` clamps at the stored count and erases the key;
- `extend(items)` counts more items;
- `minimum()` and `maximum()` return the extreme keys;
- `size()` returns the total number of occurrences;
- `data()` exposes the map in ascending key order;
- `get(key)` returns a key's count.

The class exists twice:
- `src/sortedcounter/sortedcounter.hpp` throws `std::invalid_argument` and `std::out_of_range`. Its constructors use tag dispatch: one for `std::vector`, `std::set` and `std::initializer_list`, one for maps with `int` counts.
- `src/sortedcounter/impl.cpp` throws nanobind's `key_error` and `value_error`. It has a template sequence constructor, an `std::unordered_map<T, int>` constructor, a separate `std::initializer_list` constructor, and `extend` for `std::vector` only.

The project has five files:
- `results.dfy`, module `Results`: `Result` and `Outcome`. An exception becomes a `Failure` or `Fail` value.
- `counter_spec.dfy`, module `CounterSpec`: the counter's contents as a value, `Counts = map<int, nat>`. Every update the classes make is a function here, and the properties of those functions are proved once, here:
  - `Sum` is the total;
  - `Added`, `Removed` and `Debit` model `add` and `remove`;
  - `Tally` models the counting loops;
  - `Stored` and `ValueSum` model the mapping constructor;
  - `Least`, `Greatest` and `Entries` are the ordered view.
- `counter_header.dfy`, module `CounterHeader`: the header's class, as a Dafny `class` with fields `counts` (`m_container`) and `total` (`m_size`). Its methods update those fields in place and are proved against the functions of `CounterSpec`.
- `counter_impl.dfy`, module `CounterImpl`: the same for the class in `impl.cpp`, with its own exceptions and constructors.
- `scenarios.dfy`, module `CounterScenarios`: call sequences on the header's class, with the results the model proves for them:
  - `Basics` carries out `test_basics` of `tests/test_sortedcounter.py` (lines 13-17), for any non-empty items;
  - `DeleteItems` carries out `test_delitem` (lines 26-36);
  - `test_addition` (lines 19-24) is not carried out, because it copies the counter and `copy` is not part of this model;
  - `LookupShowsInMinimum` follows `get` at `sortedcounter.hpp:160`, and `FromMapping` follows the mapping constructor at `sortedcounter.hpp:53-61`; neither comes from the test file.

The class invariant `Valid()` is `total == Sum(counts)`. Every operation keeps it. That counts are positive is stated apart, as `Positive(counts)`: every operation keeps it except `get`.

## `get` stores a zero count

Both classes read the count in `get` through `operator[]`:
- `sortedcounter.hpp:160`;
- `impl.cpp:123-125`.

A lookup of an absent key answers 0 and stores a zero count for the key. The total is unchanged, but:
- the counts are no longer all positive;
- `minimum()` and `maximum()` can return the new key;
- a counter of size 0 can be non-empty.

`Get`, `ZeroEntryBecomesLeast`, `ZeroEntryIsNonEmptyWithZeroSum` and the scenario `LookupShowsInMinimum` state these effects. `add` followed by `remove` erases such a zero entry rather than restoring it (`RemoveAfterAddErasesZeroEntry`).

## Model

| member | source | states |
|---|---|---|
| CounterSpec.EmptyIffZeroSum | src/sortedcounter/sortedcounter.hpp:154 | when every count is positive, the total (`size()`) is 0 exactly when no key is stored |
| CounterSpec.SumUpdate | src/sortedcounter/sortedcounter.hpp:89-95 | setting one key's count changes the sum of the counts by the difference between the new and the old count |
| CounterSpec.ZeroEntryIsNonEmptyWithZeroSum | src/sortedcounter/sortedcounter.hpp:160 | a lone zero entry left by `get` makes a non-empty map whose counts sum to 0 |
| CounterSpec.ZeroEntryBecomesLeast | src/sortedcounter/sortedcounter.hpp:160 | the zero entry that `get` stores for a key below every stored key has count 0 and is from then on the smallest key |
| CounterSpec.AddedCounts | src/sortedcounter/sortedcounter.hpp:89-94 | adding raises only `key`'s count, by `times`; it stores `key` and no other new key; and it keeps counts positive when `times > 0` |
| CounterSpec.AddedSum | src/sortedcounter/sortedcounter.hpp:85-96 | adding `times` occurrences raises the sum of the counts by `times` |
| CounterSpec.Debit | src/sortedcounter/sortedcounter.hpp:107-114 | what `remove` takes off the total is at most the stored count and at most `times`, and equals one of them: `times` clamped to the count |
| CounterSpec.RemovedCounts | src/sortedcounter/sortedcounter.hpp:103-115 | removing lowers only `key`'s count, by the debit; it erases `key` exactly when `times` reaches the count; and it keeps counts positive |
| CounterSpec.RemovedSum | src/sortedcounter/sortedcounter.hpp:107-114 | removing lowers the sum of the counts by the clamped debit, not by `times` |
| CounterSpec.RemoveUndoesAdd | src/sortedcounter/sortedcounter.hpp:85-116 | for `times > 0` and a key without a zero entry, removing `times` occurrences after adding them restores the counts exactly and debits exactly `times` |
| CounterSpec.RemoveAfterAddErasesZeroEntry | src/sortedcounter/sortedcounter.hpp:99-116 | for a key holding a zero entry, the same round trip erases the key, so the counts differ from the start |
| CounterSpec.TallyCounts | src/sortedcounter/sortedcounter.hpp:41-48 | counting items adds to each key's count its number of occurrences in the items, stores exactly the old keys and the items, and keeps counts positive |
| CounterSpec.TallySum | src/sortedcounter/sortedcounter.hpp:41-48 | counting items raises the sum of the counts by the number of items |
| CounterSpec.TallyAppend | src/sortedcounter/sortedcounter.hpp:125-135 | extending by `xs` and then by `ys` is extending by `xs + ys` |
| CounterSpec.TallyOrderFree | src/sortedcounter/sortedcounter.hpp:39-49 | two item sequences with the same multiset give the same counts, whatever their order |
| CounterSpec.CountEachOnce | src/sortedcounter/sortedcounter.hpp:39-49 | counting a set's elements in ascending order gives count 1 to each element, 0 to every other key, and a total equal to the set's size |
| CounterSpec.StoredCounts | src/sortedcounter/sortedcounter.hpp:54-60 | storing positive counts key by key stores exactly the visited keys with their given counts, and the sum of the stored counts is the sum added up on the way |
| CounterSpec.StoreAll | src/sortedcounter/sortedcounter.hpp:53-61 | when every position of the ascending key list has a positive count, every count of the mapping is positive, the stored map equals the mapping, and the sum of the counts is the total |
| CounterSpec.Least | src/sortedcounter/sortedcounter.hpp:150 | the key `begin()` points at is stored and is at most every stored key |
| CounterSpec.Greatest | src/sortedcounter/sortedcounter.hpp:142 | the key `rbegin()` points at is stored and is at least every stored key |
| CounterSpec.AscendingLists | src/sortedcounter/sortedcounter.hpp:12 | the ascending key list holds every key of the set once, and no other key, in strictly ascending order |
| CounterSpec.Entries | src/sortedcounter/sortedcounter.hpp:12 | iterating the ordered map yields one pair per stored key with its count, and the keys come in strictly ascending order |
| CounterHeader.SortedCounter.constructor | src/sortedcounter/sortedcounter.hpp:65 | a new counter has no keys and total 0 |
| CounterHeader.SortedCounter.FromItems | src/sortedcounter/sortedcounter.hpp:39-49 | counting a `std::vector` or `std::initializer_list`: each key's count is its number of occurrences, the total is the number of items, and `Valid()` holds with positive counts |
| CounterHeader.SortedCounter.FromSet | src/sortedcounter/sortedcounter.hpp:39-49 | counting a `std::set`: every element has count 1, nothing else is stored, and the total is the set's size |
| CounterHeader.SortedCounter.FromCounts | src/sortedcounter/sortedcounter.hpp:53-61 | the mapping constructor throws `invalid_argument("The count must be > 0.")` exactly when some count is not positive; otherwise it gives a fresh, valid counter storing the mapping's keys with their counts |
| CounterHeader.SortedCounter.Add | src/sortedcounter/sortedcounter.hpp:85-96 | `times <= 0` throws `invalid_argument` and changes nothing; otherwise the counts become `Added(old counts)`, the total rises by `times`, and `Valid()` and positivity are kept |
| CounterHeader.SortedCounter.Remove | src/sortedcounter/sortedcounter.hpp:99-116 | `times <= 0`, and then an absent key, throw `invalid_argument` with their messages and change nothing; otherwise the counts become `Removed(old counts)`, the total drops by the clamped debit, and `Valid()` and positivity are kept |
| CounterHeader.SortedCounter.Extend | src/sortedcounter/sortedcounter.hpp:125-135 | each key's count grows by its number of occurrences in the items, the total by the number of items, and `Valid()` and positivity are kept |
| CounterHeader.SortedCounter.Maximum | src/sortedcounter/sortedcounter.hpp:138-143 | throws `out_of_range("Container is empty!")` exactly when no key is stored; otherwise returns a stored key at least every stored key |
| CounterHeader.SortedCounter.Minimum | src/sortedcounter/sortedcounter.hpp:146-151 | throws `out_of_range("Container is empty!")` exactly when no key is stored; otherwise returns a stored key at most every stored key |
| CounterHeader.SortedCounter.Size | src/sortedcounter/sortedcounter.hpp:154 | the running total is the sum of the stored counts |
| CounterHeader.SortedCounter.Data | src/sortedcounter/sortedcounter.hpp:157 | the ordered view lists every stored key once with its count, in strictly ascending key order |
| CounterHeader.SortedCounter.Get | src/sortedcounter/sortedcounter.hpp:160 | returns the key's count, or 0 for an absent key; an absent key gets a zero entry; the total and `Valid()` are unchanged; the counts stay positive exactly when the key was present |
| CounterHeader.AddThenRemove | src/sortedcounter/sortedcounter.hpp:85-116 | on a key without a zero entry, `add(key, times)` then `remove(key, times)` both succeed (when `times > 0`) or both throw, and the counts and the total are as before |
| CounterImpl.SortedCounter.constructor | src/sortedcounter/impl.cpp:22 | a new counter has no keys and total 0 |
| CounterImpl.SortedCounter.FromItems | src/sortedcounter/impl.cpp:25-37 | counting a `std::vector`: each key's count is its number of occurrences, the total is the number of items, and `Valid()` holds with positive counts |
| CounterImpl.SortedCounter.FromList | src/sortedcounter/impl.cpp:48-59 | counting an `std::initializer_list`, with the same result as the template constructor |
| CounterImpl.SortedCounter.FromCounts | src/sortedcounter/impl.cpp:38-47 | the `unordered_map` constructor throws `key_error("The count must be > 0.")` exactly when some count is not positive; otherwise it gives a fresh, valid counter storing the mapping's keys with their counts |
| CounterImpl.SortedCounter.Add | src/sortedcounter/impl.cpp:60-72 | `times <= 0` throws `key_error` and changes nothing; otherwise the counts become `Added(old counts)`, the total rises by `times`, and `Valid()` and positivity are kept |
| CounterImpl.SortedCounter.Remove | src/sortedcounter/impl.cpp:73-92 | `times <= 0`, and then an absent key, throw `key_error` with their messages and change nothing; otherwise the counts become `Removed(old counts)`, the total drops by the clamped debit, and `Valid()` and positivity are kept |
| CounterImpl.SortedCounter.Extend | src/sortedcounter/impl.cpp:93-104 | each key's count grows by its number of occurrences in the vector, the total by its length, and `Valid()` and positivity are kept |
| CounterImpl.SortedCounter.Maximum | src/sortedcounter/impl.cpp:105-110 | throws `value_error("Container is empty!")` exactly when no key is stored; otherwise returns a stored key at least every stored key |
| CounterImpl.SortedCounter.Minimum | src/sortedcounter/impl.cpp:111-116 | throws `value_error("Container is empty!")` exactly when no key is stored; otherwise returns a stored key at most every stored key |
| CounterImpl.SortedCounter.Size | src/sortedcounter/impl.cpp:117-119 | the running total is the sum of the stored counts |
| CounterImpl.SortedCounter.Data | src/sortedcounter/impl.cpp:120-122 | the ordered view lists every stored key once with its count, in strictly ascending key order |
| CounterImpl.SortedCounter.Get | src/sortedcounter/impl.cpp:123-125 | returns the key's count, or 0 for an absent key; an absent key gets a zero entry; the total and `Valid()` are unchanged; the counts stay positive exactly when the key was present |
| CounterScenarios.DeleteItems | tests/test_sortedcounter.py:26-36 | from `[1, 2, 3, 3]`, the sizes after removing 3, 3, 3, 2, 1 are 3, 2, 2, 1, 0, and the third removal throws "Cannot remove non-existing value" |
| CounterScenarios.Basics | tests/test_sortedcounter.py:13-17 | for any non-empty items, the size is their number, and the maximum and minimum are the largest and smallest item |
| CounterScenarios.LookupShowsInMinimum | src/sortedcounter/sortedcounter.hpp:160 | after `get(1)` on the counter of `[5]`, the lookup answers 0, `minimum()` is 1, the size stays 1, and two keys are listed |
| CounterScenarios.FromMapping | src/sortedcounter/sortedcounter.hpp:53-61 | the mapping `{1: 2, 2: 3}` gives size 5, minimum 1, maximum 2, and count 2 for key 1 |

## Left out

- Keys are `int`. Both classes are bound to Python with `T = double`, whose NaN breaks the map's ordering; floating point is not modelled.
- CounterHeader.SortedCounter.Add: counts and the total are unbounded naturals; the `std::uint64_t` wrap-around of `m_container[key] += times` and `m_size += times` is not modelled.
- CounterImpl.SortedCounter.Add: the same `std::uint64_t` wrap-around is not modelled.
- CounterHeader.SortedCounter.Extend: `++m_size` and the count increments cannot wrap in the model.
- CounterImpl.SortedCounter.Extend: the same.
- CounterHeader.SortedCounter.FromCounts: `m_size += value` cannot wrap in the model.
- CounterImpl.SortedCounter.FromCounts: the same.
- CounterHeader.SortedCounter.Remove: requires the stored count to be at most 2^63 - 1, so that `static_cast<std::int64_t>` keeps its value. Larger counts, where the cast turns negative and the key is erased, are not modelled.
- CounterImpl.SortedCounter.Remove: the same precondition.
- CounterHeader.SortedCounter.FromCounts: the header's mapping constructor also receives an `std::unordered_map`, whose iteration order is unspecified. The model visits keys in ascending order, as for an `std::map`. Neither the outcome nor the stored counts depend on the order.
- CounterImpl.SortedCounter.FromCounts: the iteration order of `std::unordered_map` is unspecified. The model visits keys in ascending order. Neither the outcome nor the stored counts depend on the order.
- A constructor that throws leaves no object. The model's `FromCounts` returns the exception instead of a counter, and the partly filled object it built is not observable.
- The header's tag dispatch and `enable_if` constraints (`is_sequence_container`, `is_map_container`, `SequenceTag`, `MapTag`) are replaced by named constructors. The public forwarding constructors (sortedcounter.hpp:71-82) only select one of them.
- The header's `extend` also takes an `std::initializer_list` or an `std::set`. The model's `Extend` takes the items as a sequence, so a set is passed as its ascending enumeration.
- `data()` returns a reference to the map. The model returns the ascending list of (key, count) pairs as a value, so aliasing of the reference is not modelled.
- The destructors are defaulted and have no behaviour.
- The O(log n) cost of the map's operations is not modelled.
- The Python binding glue is not part of this model: `src/sortedcounter/pywrapper.cpp`, and the `NB_MODULE` block of `src/sortedcounter/impl.cpp` (lines 130-159). It registers the class, maps exceptions to Python ones, builds `__repr__` and `to_dict`, and binds `copy`, a member that neither class defines.
- The `extend` overloads for `std::map` and `std::unordered_map` named in the binding are not modelled. The header's `extend` admits only element sequences, so no map-extend code exists.
- Conversion of Python integers to `std::int64_t` is done by the binding. The model takes `times` already in the `Int64` range.
