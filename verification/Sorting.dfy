/** Library sorting: some ordered permutation. Elements with equal keys end up in any order. */
module Sorting {

  predicate Ascending<T>(items: seq<T>, key: T -> int) {
    forall i, j :: 0 <= i < j < |items| ==> key(items[i]) <= key(items[j])
  }

  /** Only element `k` of the first ones may be out of place. */
  predicate AscendingBut<T>(items: seq<T>, key: T -> int, k: nat) {
    forall i, j :: 0 <= i < j < |items| && j != k ==> key(items[i]) <= key(items[j])
  }

  lemma SwapDown<T>(items: seq<T>, key: T -> int, n: nat, k: nat)
    requires 0 < k <= n < |items| && AscendingBut(items[..n + 1], key, k) && key(items[k - 1]) > key(items[k])
    ensures var swapped := items[k - 1 := items[k]][k := items[k - 1]];
            multiset(swapped) == multiset(items) && AscendingBut(swapped[..n + 1], key, k - 1)
  {
    var swapped := items[k - 1 := items[k]][k := items[k - 1]];
    var before, after := items[..n + 1], swapped[..n + 1];
    forall i, j | 0 <= i < j < |after| && j != k - 1
      ensures key(after[i]) <= key(after[j])
    {
      var i', j' := if i == k then k - 1 else if i == k - 1 then k else i, if j == k then k - 1 else j;
      assert after[i] == before[i'] && after[j] == before[j'];
    }
  }

  /** Puts element `n` in its place among the sorted ones before it. */
  method InsertBy<T(==)>(items: array<T>, n: nat, key: T -> int)
    requires n < items.Length && Ascending(items[..n], key)
    modifies items
    ensures multiset(items[..]) == multiset(old(items[..]))
    ensures Ascending(items[..n + 1], key)
  {
    var k := n;
    assert AscendingBut(items[..n + 1], key, n);
    while k > 0 && key(items[k - 1]) > key(items[k])
      invariant 0 <= k <= n
      invariant multiset(items[..]) == multiset(old(items[..]))
      invariant AscendingBut(items[..n + 1], key, k)
    {
      hide AscendingBut;
      ghost var before := items[..];
      SwapDown(before, key, n, k);
      assert before[..n + 1] == items[..n + 1];
      items[k - 1], items[k] := items[k], items[k - 1];
      assert items[..] == before[k - 1 := before[k]][k := before[k - 1]];
      assert items[..][..n + 1] == items[..n + 1];
      k := k - 1;
    }
    Settled(items[..n + 1], key, k);
  }

  lemma Settled<T>(items: seq<T>, key: T -> int, k: nat)
    requires k < |items| && AscendingBut(items, key, k) && (k == 0 || key(items[k - 1]) <= key(items[k]))
    ensures Ascending(items, key)
  {
    forall i, j | 0 <= i < j < |items|
      ensures key(items[i]) <= key(items[j])
    {
      if j == k && i < k - 1 {
        assert key(items[i]) <= key(items[k - 1]);
      }
    }
  }

  /** Stands for `sort.Slice`. */
  method SortBy<T(==)>(items: array<T>, key: T -> int)
    modifies items
    ensures multiset(items[..]) == multiset(old(items[..]))
    ensures Ascending(items[..], key)
  {
    for n := 0 to items.Length
      invariant multiset(items[..]) == multiset(old(items[..]))
      invariant Ascending(items[..n], key)
    {
      InsertBy(items, n, key);
    }
    assert items[..items.Length] == items[..];
  }
}
