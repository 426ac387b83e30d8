/**
  Call sequences on the model of the header's class, with the results the
  model proves for them. `Basics` and `DeleteItems` carry out `test_basics`
  and `test_delitem` of tests/test_sortedcounter.py; the Python binding
  raises `ValueError` where the header throws `std::invalid_argument`.
  `test_addition` is not carried out, because it copies the counter and
  `copy` is not part of this model. `LookupShowsInMinimum` follows `get`
  (src/sortedcounter/sortedcounter.hpp:160) and `FromMapping` the mapping
  constructor (src/sortedcounter/sortedcounter.hpp:53-61); neither comes
  from the test file.
 */
module CounterScenarios {
  import opened Results
  import opened CounterSpec
  import opened CounterHeader

  /** The counter built from `[1, 2, 3, 3]`. */
  method OneTwoThreeThree() returns (c: SortedCounter)
    ensures fresh(c) && c.Valid()
    ensures c.counts == map[1 := 1, 2 := 1, 3 := 2] && c.total == 4
  {
    var items := [1, 2, 3, 3];
    c := new SortedCounter.FromItems(items);
    assert items[..3] == [1, 2, 3] && items[..3][..2] == [1, 2] && items[..3][..2][..1] == [1];
    assert Tally(map[], [1]) == map[1 := 1] by {
      assert [1][..0] == [];
    }
    assert Tally(map[], [1, 2]) == map[1 := 1, 2 := 1];
    assert Tally(map[], [1, 2, 3]) == map[1 := 1, 2 := 1, 3 := 1];
  }

  /** `test_delitem`: two single removals of 3 from `[1, 2, 3, 3]`, a third
      one that names a key already gone, then removals of the other two
      keys; the sizes after each call. */
  method DeleteItems() returns (sizes: seq<nat>, third: Outcome<Error>)
    ensures sizes == [3, 2, 2, 1, 0]
    ensures third == Fail(InvalidArgument(RemoveMissing))
  {
    var c := OneTwoThreeThree();
    var n1, n2 := RemoveBothThrees(c);
    var n3, n4, n5;
    third, n3, n4, n5 := RemoveTheRest(c);
    sizes := [n1, n2, n3, n4, n5];
  }

  /** The first two removals of 3, each by one occurrence. */
  method RemoveBothThrees(c: SortedCounter) returns (n1: nat, n2: nat)
    requires c.Valid() && c.counts == map[1 := 1, 2 := 1, 3 := 2] && c.total == 4
    modifies c
    ensures c.Valid() && c.counts == map[1 := 1, 2 := 1] && c.total == 2
    ensures n1 == 3 && n2 == 2
  {
    var status := c.Remove(3, 1);
    assert c.counts == map[1 := 1, 2 := 1, 3 := 1];
    n1 := c.Size();
    status := c.Remove(3, 1);
    assert c.counts == map[1 := 1, 2 := 1];
    n2 := c.Size();
  }

  /** The failing removal of 3, then the removals of 2 and 1. */
  method RemoveTheRest(c: SortedCounter) returns (third: Outcome<Error>, n3: nat, n4: nat, n5: nat)
    requires c.Valid() && c.counts == map[1 := 1, 2 := 1] && c.total == 2
    modifies c
    ensures third == Fail(InvalidArgument(RemoveMissing))
    ensures n3 == 2 && n4 == 1 && n5 == 0
    ensures c.counts == map[] && c.total == 0
  {
    third := c.Remove(3, 1);
    n3 := c.Size();
    var status := c.Remove(2, 1);
    assert c.counts == map[1 := 1];
    n4 := c.Size();
    status := c.Remove(1, 1);
    n5 := c.Size();
  }

  /** `test_basics`, for any items: the size is their number, and the
      largest and smallest keys are the largest and smallest items. */
  method Basics(items: seq<int>) returns (size: nat, largest: Result<int, Error>, smallest: Result<int, Error>)
    requires items != []
    ensures size == |items|
    ensures largest.Success? && largest.value in items && forall x | x in items :: x <= largest.value
    ensures smallest.Success? && smallest.value in items && forall x | x in items :: smallest.value <= x
  {
    var c := new SortedCounter.FromItems(items);
    TallyCounts(map[], items);
    var counts := c.counts;
    assert forall x :: x in counts <==> x in items by {
      forall x
        ensures x in counts <==> x in items
      {
        assert x in Tally(map[], items) <==> x in items;
      }
    }
    assert items[0] in items;
    size := c.Size();
    largest := c.Maximum();
    smallest := c.Minimum();
  }

  /** A lookup of an absent key below every stored key: it answers 0, but
      the key is stored from then on, so `minimum()` returns it and the
      counter with one occurrence of 5 now lists two keys. */
  method LookupShowsInMinimum() returns (n: nat, smallest: Result<int, Error>, size: nat, keys: nat)
    ensures n == 0 && smallest == Success(1) && size == 1 && keys == 2
  {
    var c := new SortedCounter.FromItems([5]);
    assert [5][..0] == [];
    assert c.counts == map[5 := 1];
    n := c.Get(1);
    ZeroEntryBecomesLeast(map[5 := 1], 1);
    smallest := c.Minimum();
    size := c.Size();
    keys := |c.Data()|;
  }

  /** The mapping `{1: 2, 2: 3}`: size 5, minimum 1, maximum 2, and 2
      occurrences of 1. */
  method FromMapping() returns (size: nat, smallest: Result<int, Error>, largest: Result<int, Error>, n: nat)
    ensures size == 5 && smallest == Success(1) && largest == Success(2) && n == 2
  {
    var r := SortedCounter.FromCounts(map[1 := 2, 2 := 3]);
    var c := r.value;
    assert c.counts == map[1 := 2, 2 := 3];
    SumUpdate(map[], 1, 2);
    SumUpdate(map[1 := 2], 2, 3);
    size := c.Size();
    smallest := c.Minimum();
    largest := c.Maximum();
    n := c.Get(1);
  }
}
