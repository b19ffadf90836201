/**
 * Policy-id allocation: a new policy receives the least non-negative number
 * not used by any policy in the store's current map.
 */
module PolicyIds {
  import opened Wrappers
  import opened Atomics
  import opened Policies
  import opened PolicyStorage

  predicate StrictlyIncreasing(a: seq<int>)
  {
    forall i, j :: 0 <= i < j < |a| ==> a[i] < a[j]
  }

  predicate Ascending(a: seq<int>)
  {
    forall i, j :: 0 <= i < j < |a| ==> a[i] <= a[j]
  }

  predicate NoDuplicates(a: seq<int>)
  {
    forall i, j :: 0 <= i < j < |a| ==> a[i] != a[j]
  }

  predicate NonNegative(a: seq<int>)
  {
    forall i :: 0 <= i < |a| ==> a[i] >= 0
  }

  /** `r` is the least non-negative integer that does not occur in `ids`. */
  predicate IsLeastMissing(ids: set<int>, r: int)
  {
    r >= 0 && r !in ids && forall k :: 0 <= k < r ==> k in ids
  }

  /** There is at most one least missing value. */
  lemma LeastMissingUnique(ids: set<int>, r1: int, r2: int)
    requires IsLeastMissing(ids, r1) && IsLeastMissing(ids, r2)
    ensures r1 == r2
  {
  }

  // ------------------------------------------------------------ the search

  /**
   * Binary search over `a[start..end]` (inclusive) for the first position
   * whose element differs from the position itself.
   */
  function FindFirstMissing(a: seq<int>, start: int, end: int): (r: int)
    requires 0 <= start && end < |a|
    ensures start <= end + 1 ==> start <= r <= end + 1
    decreases end - start
  {
    if start > end then end + 1
    else if start != a[start] then start
    else
      var mid := (start + end) / 2;
      if a[mid] == mid then FindFirstMissing(a, mid + 1, end)
      else FindFirstMissing(a, start, mid)
  }

  /** In a strictly increasing list of integers, elements grow at least as fast as their positions. */
  lemma {:induction false} Gap(a: seq<int>, i: int, j: int)
    requires StrictlyIncreasing(a) && 0 <= i <= j < |a|
    ensures a[j] - a[i] >= j - i
    decreases j - i
  {
    if i < j {
      Gap(a, i + 1, j);
    }
  }

  /**
   * A strictly increasing list of non-negative integers equals its positions
   * up to some cut `m` and exceeds them from `m` on.
   */
  lemma IdentityCut(a: seq<int>) returns (m: nat)
    requires StrictlyIncreasing(a) && NonNegative(a)
    ensures m <= |a|
    ensures forall j :: 0 <= j < m ==> a[j] == j
    ensures forall j :: m <= j < |a| ==> a[j] > j
  {
    m := 0;
    while m < |a| && a[m] == m
      invariant m <= |a|
      invariant forall j :: 0 <= j < m ==> a[j] == j
    {
      m := m + 1;
    }
    forall j | m <= j < |a|
      ensures a[j] > j
    {
      Gap(a, 0, m);
      Gap(a, m, j);
    }
  }

  /**
   * When the elements equal their positions exactly below the cut `m`, and
   * the range `start..end` still contains or ends just before the cut, the
   * search finds the cut.
   */
  lemma {:induction false} FindFirstMissingFindsCut(a: seq<int>, start: int, end: int, m: int)
    requires 0 <= start <= m <= end + 1 <= |a|
    requires forall j :: 0 <= j < |a| ==> (a[j] == j <==> j < m)
    ensures FindFirstMissing(a, start, end) == m
    decreases end - start
  {
    if start <= end && start == a[start] {
      var mid := (start + end) / 2;
      if a[mid] == mid {
        FindFirstMissingFindsCut(a, mid + 1, end, m);
      } else {
        FindFirstMissingFindsCut(a, start, mid, m);
      }
    }
  }

  /**
   * On a strictly increasing list of non-negative integers, searching the
   * whole list yields the least non-negative integer missing from it, which
   * is at most the list's length.
   */
  lemma FirstMissingIsLeast(a: seq<int>)
    requires StrictlyIncreasing(a) && NonNegative(a)
    ensures var r := FindFirstMissing(a, 0, |a| - 1);
      0 <= r <= |a| && IsLeastMissing((set x | x in a), r)
  {
    var m := IdentityCut(a);
    FindFirstMissingFindsCut(a, 0, |a| - 1, m);
    forall k | 0 <= k < m
      ensures k in a
    {
      assert a[k] == k;
    }
  }

  lemma SearchExamples()
    ensures FindFirstMissing([0, 1, 3], 0, 2) == 2
    ensures FindFirstMissing([], 0, -1) == 0
    ensures FindFirstMissing([0, 1, 2], 0, 2) == 3
  {
  }

  // ------------------------------------------------------------ sorting

  function Insert(x: int, s: seq<int>): seq<int>
  {
    if |s| == 0 then [x]
    else if x <= s[0] then [x] + s
    else [s[0]] + Insert(x, s[1..])
  }

  lemma {:induction false} InsertPermutes(x: int, s: seq<int>)
    ensures multiset(Insert(x, s)) == multiset(s) + multiset{x}
  {
    if |s| > 0 && x > s[0] {
      InsertPermutes(x, s[1..]);
      assert s == [s[0]] + s[1..];
    }
  }

  /** Every element of an insertion is the new element or an old one, so a common lower bound survives. */
  lemma {:induction false} InsertAbove(x: int, s: seq<int>, lo: int, strict: bool)
    requires if strict then lo < x else lo <= x
    requires forall i :: 0 <= i < |s| ==> if strict then lo < s[i] else lo <= s[i]
    ensures forall i :: 0 <= i < |Insert(x, s)| ==> if strict then lo < Insert(x, s)[i] else lo <= Insert(x, s)[i]
  {
    if |s| > 0 && x > s[0] {
      InsertAbove(x, s[1..], lo, strict);
    }
  }

  /** Inserting into an ascending list keeps it ascending. */
  lemma {:induction false} InsertAscending(x: int, s: seq<int>)
    requires Ascending(s)
    ensures Ascending(Insert(x, s))
  {
    if |s| > 0 && x > s[0] {
      InsertAscending(x, s[1..]);
      InsertAbove(x, s[1..], s[0], false);
    }
  }

  /** Inserting a new element into a strictly increasing list keeps it strictly increasing. */
  lemma {:induction false} InsertStrict(x: int, s: seq<int>)
    requires StrictlyIncreasing(s) && x !in s
    ensures StrictlyIncreasing(Insert(x, s))
  {
    if |s| > 0 && x > s[0] {
      assert x !in s[1..];
      InsertStrict(x, s[1..]);
      InsertAbove(x, s[1..], s[0], true);
    }
  }

  /** The ascending permutation of a list of ids (the list sort). */
  function Sort(s: seq<int>): seq<int>
  {
    if |s| == 0 then [] else Insert(s[0], Sort(s[1..]))
  }

  /** Sorting permutes the list. */
  lemma {:induction false} SortPermutes(s: seq<int>)
    ensures multiset(Sort(s)) == multiset(s)
  {
    if |s| > 0 {
      SortPermutes(s[1..]);
      InsertPermutes(s[0], Sort(s[1..]));
      assert s == [s[0]] + s[1..];
    }
  }

  /** Sorting yields an ascending list. */
  lemma {:induction false} SortAscending(s: seq<int>)
    ensures Ascending(Sort(s))
  {
    if |s| > 0 {
      SortAscending(s[1..]);
      InsertAscending(s[0], Sort(s[1..]));
    }
  }

  /** Sorting a list without duplicates yields a strictly increasing list. */
  lemma {:induction false} SortStrict(s: seq<int>)
    requires NoDuplicates(s)
    ensures StrictlyIncreasing(Sort(s))
  {
    if |s| > 0 {
      var rest := Sort(s[1..]);
      assert NoDuplicates(s[1..]) by {
        forall i, j | 0 <= i < j < |s[1..]|
          ensures s[1..][i] != s[1..][j]
        {
          assert s[1..][i] == s[i + 1] && s[1..][j] == s[j + 1];
        }
      }
      SortStrict(s[1..]);
      SortPermutes(s[1..]);
      assert s[0] !in s[1..];
      assert s[0] !in multiset(rest);
      InsertStrict(s[0], rest);
    }
  }

  /** Sorting permutes the list into ascending order, strictly ascending when the list has no duplicates. */
  lemma SortCorrect(s: seq<int>)
    ensures multiset(Sort(s)) == multiset(s) && Ascending(Sort(s))
    ensures NoDuplicates(s) ==> StrictlyIncreasing(Sort(s))
  {
    SortPermutes(s);
    SortAscending(s);
    if NoDuplicates(s) {
      SortStrict(s);
    }
  }

  /** A sorted list has the same length and the same elements as the list. */
  lemma SortSameElements(list: seq<int>)
    ensures |Sort(list)| == |list|
    ensures (set x | x in Sort(list)) == (set x | x in list)
  {
    var sorted := Sort(list);
    SortPermutes(list);
    assert |sorted| == |multiset(sorted)| == |multiset(list)| == |list|;
    forall x
      ensures x in sorted <==> x in list
    {
      assert x in sorted <==> x in multiset(sorted);
      assert x in list <==> x in multiset(list);
    }
  }

  /**
   * Sorting a duplicate-free list of the stored ids and searching it yields a
   * number between 0 and the number of ids; when no id is negative, it is
   * the least non-negative integer not among them.
   */
  lemma AllocationCorrect(ids: set<int>, list: seq<int>)
    requires (set x | x in list) == ids && NoDuplicates(list) && |list| == |ids|
    ensures var sorted := Sort(list);
      var r := FindFirstMissing(sorted, 0, |sorted| - 1);
      && |sorted| == |ids|
      && 0 <= r <= |ids|
      && ((forall k :: k in ids ==> k >= 0) ==> IsLeastMissing(ids, r))
  {
    var sorted := Sort(list);
    SortCorrect(list);
    SortSameElements(list);
    if forall k :: k in ids ==> k >= 0 {
      assert NonNegative(sorted) by {
        forall i | 0 <= i < |sorted|
          ensures sorted[i] >= 0
        {
          assert sorted[i] in (set x | x in sorted);
          assert sorted[i] in ids;
        }
      }
      FirstMissingIsLeast(sorted);
    }
  }

  // ------------------------------------------------------------ the id object

  /** A policy id: a number allocated from the store, and the policy's name. */
  class DefaultPolicyId {
    var policyName: Option<string>
    var policyId: int

    constructor()
      ensures policyName.None? && policyId == 0
    {
      policyName := None;
      policyId := 0;
    }

    function GetPolicyId(): int
      reads this
    {
      policyId
    }

    function GetPolicyName(): Option<string>
      reads this
    {
      policyName
    }

    /** The id value a policy built from this object carries. */
    function Value(): PolicyId
      reads this
    {
      PolicyId(policyId, policyName)
    }

    /**
     * Records the name and allocates the number: the ids of the store's
     * current policies are collected, sorted and searched for the first gap.
     * The search result never exceeds the list size, so the counter
     * fallback (list size plus one) is dead code. When every stored id is non-negative,
     * the number is the least non-negative integer no stored policy uses.
     */
    method CreatePolicyId(name: Option<string>, store: SimplePolicyStore, uniqueId: AtomicCounter)
      modifies this, uniqueId
      ensures policyName == name
      ensures 0 <= policyId <= |store.current|
      ensures (forall k :: k in store.current ==> k >= 0) ==> IsLeastMissing(store.current.Keys, policyId)
      ensures policyId !in store.current || exists k :: k in store.current && k < 0
      ensures uniqueId.value == old(uniqueId.value)
    {
      policyName := name;
      var policyIdSet := store.GetCurrentPolicyMap().Keys;
      var policyIdSetValues: seq<int> := [];
      var remaining := policyIdSet;
      while remaining != {}
        invariant remaining <= policyIdSet
        invariant forall x :: x in policyIdSetValues <==> x in policyIdSet && x !in remaining
        invariant |policyIdSetValues| + |remaining| == |policyIdSet|
        invariant NoDuplicates(policyIdSetValues)
        invariant policyName == name && uniqueId.value == old(uniqueId.value)
        decreases |remaining|
      {
        var id := Pick(remaining);
        policyIdSetValues := policyIdSetValues + [id];
        remaining := remaining - {id};
      }
      assert (set x | x in policyIdSetValues) == policyIdSet;
      AllocationCorrect(policyIdSet, policyIdSetValues);
      policyIdSetValues := Sort(policyIdSetValues);
      var missingNumber := FindFirstMissing(policyIdSetValues, 0, |policyIdSetValues| - 1);
      if missingNumber == |policyIdSetValues| + 1 {
        // the counter fallback: the search never returns this value
        assert false;
      } else {
        policyId := missingNumber;
      }
      assert store.current.Keys == policyIdSet;
    }
  }
}
