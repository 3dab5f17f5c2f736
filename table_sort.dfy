/**
 * Sorting of the food table (src/hooks/useTableSort.ts): a sort configuration
 * (key and order) that a header click changes, a comparator that puts missing
 * values last and compares strings by locale order and numbers by their
 * difference, and the sorted copy of the rows.
 */
module TableSort {
  import opened Js

  datatype Order = Asc | Desc

  /** The configuration after a click on column `k`. */
  function NextConfig(key: string, order: Order, k: string): (r: (string, Order))
    ensures r.0 == k
    ensures r.1 == Desc <==> key == k && order == Asc
  {
    (k, if key == k && order == Asc then Desc else Asc)
  }

  /** Clicking the current column twice gives the configuration back. */
  lemma ClickTwice(key: string, order: Order)
    ensures var c := NextConfig(key, order, key); NextConfig(c.0, c.1, key) == (key, order)
  {
  }

  /**
   * The comparator for two key values; a positive result puts `a` after `b`.
   * `localeCompare` is the runtime's collation; a difference that is NaN
   * counts as 0, as for `Array.prototype.sort`.
   */
  function Compare(a: Value, b: Value, order: Order, localeCompare: (string, string) -> int): (r: real)
    ensures Nullish(a) ==> r == 1.0
    ensures !Nullish(a) && Nullish(b) ==> r == -1.0
    ensures a.Str? && b.Str? ==>
      r == (if order == Asc then localeCompare(a.s, b.s) else localeCompare(b.s, a.s)) as real
    ensures a.Num? && b.Num? ==> r == (if order == Asc then a.n - b.n else b.n - a.n)
    ensures !Nullish(a) && !Nullish(b) && !(a.Str? && b.Str?) && !(a.Num? && b.Num?) ==> r == 0.0
  {
    if Nullish(a) then 1.0
    else if Nullish(b) then -1.0
    else if a.Str? && b.Str? then
      (if order == Asc then localeCompare(a.s, b.s) else localeCompare(b.s, a.s)) as real
    else if a.Num? && b.Num? then
      (if order == Asc then a.n - b.n else b.n - a.n)
    else 0.0
  }

  /** A missing value goes after a present one, in either order and from either side. */
  lemma MissingLast(a: Value, b: Value, order: Order, localeCompare: (string, string) -> int)
    requires Nullish(a) && !Nullish(b)
    ensures Compare(a, b, order, localeCompare) > 0.0
    ensures Compare(b, a, order, localeCompare) < 0.0
  {
  }

  /** Swapping the order negates the comparison of two numbers. */
  lemma DescReversesNumbers(a: Value, b: Value, localeCompare: (string, string) -> int)
    requires a.Num? && b.Num?
    ensures Compare(a, b, Desc, localeCompare) == -Compare(a, b, Asc, localeCompare)
    ensures Compare(a, b, Asc, localeCompare) == -Compare(b, a, Asc, localeCompare)
  {
  }

  /** Every row holds a number or nothing (null or undefined) under `key`. */
  predicate Comparable(rows: seq<Record>, key: string) {
    forall i :: 0 <= i < |rows| ==> Get(rows[i], key).Num? || Nullish(Get(rows[i], key))
  }

  /** The position of a number in the requested order: the number, negated for descending. */
  function Rank(v: Value, order: Order): real
    requires v.Num?
  {
    if order == Asc then v.n else -v.n
  }

  /** Row `x` may come before row `y`: `y` has no value, or both have numbers and `x` ranks no higher. */
  predicate InOrder(x: Record, y: Record, key: string, order: Order) {
    Nullish(Get(y, key)) || (Get(x, key).Num? && Get(y, key).Num? && Rank(Get(x, key), order) <= Rank(Get(y, key), order))
  }

  /** The rows are in the requested order. */
  predicate SortedBy(rows: seq<Record>, key: string, order: Order) {
    forall i, j :: 0 <= i < j < |rows| ==> InOrder(rows[i], rows[j], key, order)
  }

  /**
   * What sorted means for rows of numbers and missing values: the numbers
   * ascend (descend for `Desc`), and no number comes after a missing value.
   */
  lemma SortedMeaning(rows: seq<Record>, key: string, order: Order, i: nat, j: nat)
    requires Comparable(rows, key) && SortedBy(rows, key, order) && i < j < |rows|
    ensures Nullish(Get(rows[i], key)) ==> Nullish(Get(rows[j], key))
    ensures Get(rows[i], key).Num? && Get(rows[j], key).Num? ==>
      if order == Asc then Get(rows[i], key).n <= Get(rows[j], key).n else Get(rows[i], key).n >= Get(rows[j], key).n
  {
    assert InOrder(rows[i], rows[j], key, order);
  }

  /**
   * On numbers and missing values the comparator agrees with the order: a
   * positive result says `y` may come before `x`, any other says `x` may come
   * before `y`.
   */
  lemma CompareAgreesWithOrder(x: Record, y: Record, key: string, order: Order, localeCompare: (string, string) -> int)
    requires Get(x, key).Num? || Nullish(Get(x, key))
    requires Get(y, key).Num? || Nullish(Get(y, key))
    ensures Compare(Get(x, key), Get(y, key), order, localeCompare) > 0.0 ==> InOrder(y, x, key, order)
    ensures Compare(Get(x, key), Get(y, key), order, localeCompare) <= 0.0 ==> InOrder(x, y, key, order)
  {
  }

  /** The state of one `useTableSort` hook. */
  class TableSortHook {
    var key: string
    var order: Order

    /** The configuration starts at the given default key and order ('name' and ascending unless given). */
    constructor (defaultSortKey: string, defaultOrder: Order)
      ensures key == defaultSortKey && order == defaultOrder
    {
      key := defaultSortKey;
      order := defaultOrder;
    }

    /** `handleSort`: the clicked column becomes the key; the order turns descending only on a second click from ascending. */
    method HandleSort(k: string)
      modifies this
      ensures (key, order) == NextConfig(old(key), old(order), k)
    {
      var descending := key == k && order == Asc;
      key := k;
      order := if descending then Desc else Asc;
    }

    /**
     * `sortedData`: a copy of the rows sorted with the comparator. The input is
     * a value and stays as it was; the result holds the same rows, and when
     * every row has a number under the key they are in the requested order.
     * The runtime's sort algorithm is replaced by an insertion sort.
     */
    method SortedData(data: seq<Record>, localeCompare: (string, string) -> int) returns (sorted: seq<Record>)
      ensures multiset(sorted) == multiset(data)
      ensures Comparable(data, key) ==> SortedBy(sorted, key, order)
    {
      var a := new Record[|data|](i requires 0 <= i < |data| => data[i]);
      assert a[..] == data;
      var i := 1;
      while i < a.Length
        invariant multiset(a[..]) == multiset(data)
        invariant Comparable(data, key) ==> Comparable(a[..], key) && SortedBy(a[..if i < a.Length then i else a.Length], key, order)
      {
        Insert(a, i, key, order, localeCompare, Comparable(data, key));
        i := i + 1;
      }
      if a.Length > 0 {
        assert a[..if i < a.Length then i else a.Length] == a[..];
      }
      sorted := a[..];
    }
    }

  /** The rows in [0, hi], apart from the one at `hole`, are in order, and the row at `hole` may come before those after it. */
  ghost predicate SortedAround(rows: seq<Record>, key: string, order: Order, hole: nat, hi: nat)
    requires hole <= hi < |rows|
  {
    && (forall k, l :: 0 <= k < l <= hi && l != hole ==> InOrder(rows[k], rows[l], key, order))
    && (forall l :: hole < l <= hi ==> InOrder(rows[hole], rows[l], key, order))
  }

  /** One pass of the insertion sort: the row at `i` moves down past the rows the comparator puts after it. */
  method Insert(a: array<Record>, i: nat, key: string, order: Order, localeCompare: (string, string) -> int, ghost sortable: bool)
    requires 1 <= i < a.Length
    requires sortable ==> Comparable(a[..], key) && SortedBy(a[..i], key, order)
    modifies a
    ensures multiset(a[..]) == old(multiset(a[..]))
    ensures sortable ==> Comparable(a[..], key) && SortedBy(a[..i + 1], key, order)
  {
    if sortable {
      OpenHole(a[..], key, order, i);
    }
    var j := i;
    while j > 0 && Compare(Get(a[j - 1], key), Get(a[j], key), order, localeCompare) > 0.0
      invariant 0 <= j <= i
      invariant multiset(a[..]) == old(multiset(a[..]))
      invariant sortable ==> Comparable(a[..], key) && SortedAround(a[..], key, order, j, i)
    {
      ghost var before := a[..];
      if sortable {
        CompareAgreesWithOrder(a[j - 1], a[j], key, order, localeCompare);
      }
      a[j - 1], a[j] := a[j], a[j - 1];
      if sortable {
        SwapKeepsOrder(before, a[..], key, order, j, i);
      }
      j := j - 1;
    }
    if sortable {
      if j > 0 {
        CompareAgreesWithOrder(a[j - 1], a[j], key, order, localeCompare);
      }
      ClosedHole(a[..], key, order, j, i);
    }
  }

  /** Moving the held row one place down keeps the invariant of the insertion pass. */
  lemma SwapKeepsOrder(before: seq<Record>, after: seq<Record>, key: string, order: Order, j: nat, i: nat)
    requires 0 < j <= i < |before| == |after|
    requires Comparable(before, key) && SortedAround(before, key, order, j, i)
    requires InOrder(before[j], before[j - 1], key, order)
    requires after == before[j - 1 := before[j]][j := before[j - 1]]
    ensures Comparable(after, key) && SortedAround(after, key, order, j - 1, i)
  {
    forall l | 0 <= l < |after| ensures Get(after[l], key).Num? || Nullish(Get(after[l], key)) {
      if l == j - 1 { assert after[l] == before[j]; }
      else if l == j { assert after[l] == before[j - 1]; }
      else { assert after[l] == before[l]; }
    }
  }

  /** Before the pass, the first i rows are in order and the row at i is held. */
  lemma OpenHole(rows: seq<Record>, key: string, order: Order, i: nat)
    requires i < |rows| && SortedBy(rows[..i], key, order)
    ensures SortedAround(rows, key, order, i, i)
  {
    forall k, l | 0 <= k < l <= i && l != i ensures InOrder(rows[k], rows[l], key, order) {
      assert rows[k] == rows[..i][k] && rows[l] == rows[..i][l];
    }
  }

  /** When the held row is in place, the first i + 1 rows are in order. */
  lemma ClosedHole(rows: seq<Record>, key: string, order: Order, j: nat, i: nat)
    requires j <= i < |rows| && Comparable(rows, key)
    requires SortedAround(rows, key, order, j, i)
    requires j > 0 ==> InOrder(rows[j - 1], rows[j], key, order)
    ensures SortedBy(rows[..i + 1], key, order)
  {
    forall k, l | 0 <= k < l <= i ensures InOrder(rows[k], rows[l], key, order) {
      if l == j && k < j - 1 {
        assert InOrder(rows[k], rows[j - 1], key, order);
      }
    }
  }
}
