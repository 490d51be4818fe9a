/**
 * How many times one item appears across the borrowed lists of all
 * registered users. The library keeps this number at 0 for an available
 * item and at 1 for an item on loan; the lemmas below turn that count into
 * "in no list" and "in exactly one user's list", and say how a change to
 * one user's list moves the count.
 */
module Holdings {

  /** Total number of occurrences of `x` over the lists, one list per user. */
  function Occurrences<T(==)>(x: T, lists: seq<seq<T>>): nat
  {
    if lists == [] then 0 else multiset(lists[0])[x] + Occurrences(x, lists[1..])
  }

  /** Replacing one user's list changes the count by what that list gained or lost. */
  lemma {:induction false} OccurrencesUpdate<T>(x: T, lists: seq<seq<T>>, k: nat, l: seq<T>)
    requires k < |lists|
    ensures Occurrences(x, lists[k := l]) + multiset(lists[k])[x] == Occurrences(x, lists) + multiset(l)[x]
  {
    if k > 0 {
      assert lists[k := l][1..] == lists[1..][k - 1 := l];
      OccurrencesUpdate(x, lists[1..], k - 1, l);
    }
  }

  /** Each list holds at most as many copies as the whole count. */
  lemma {:induction false} OccurrencesCoversEach<T>(x: T, lists: seq<seq<T>>, k: nat)
    requires k < |lists|
    ensures multiset(lists[k])[x] <= Occurrences(x, lists)
  {
    if k > 0 {
      OccurrencesCoversEach(x, lists[1..], k - 1);
    }
  }

  /** A count of 0 means no list holds `x`, and conversely. */
  lemma {:induction false} OccurrencesZero<T>(x: T, lists: seq<seq<T>>)
    ensures Occurrences(x, lists) == 0 <==> forall k :: 0 <= k < |lists| ==> x !in lists[k]
  {
    if lists != [] {
      OccurrencesZero(x, lists[1..]);
      if Occurrences(x, lists) != 0 && multiset(lists[0])[x] == 0 {
        var k :| 0 <= k < |lists[1..]| && x in lists[1..][k];
        assert x in lists[k + 1];
      }
      if Occurrences(x, lists) == 0 {
        forall k | 0 <= k < |lists| ensures x !in lists[k] {
          OccurrencesCoversEach(x, lists, k);
        }
      }
    }
  }

  /** Two lists that both hold `x` when the count is at most 1 are the same list. */
  lemma OccurrencesSingleHolder<T>(x: T, lists: seq<seq<T>>, i: nat, j: nat)
    requires i < |lists| && j < |lists|
    requires Occurrences(x, lists) <= 1
    requires x in lists[i] && x in lists[j]
    ensures i == j
  {
    if i != j {
      var without := lists[i := []];
      OccurrencesUpdate(x, lists, i, []);
      assert without[j] == lists[j];
      OccurrencesCoversEach(x, without, j);
    }
  }

  /**
   * A count of exactly 1 means exactly one list holds `x`, and holds it
   * once; and conversely.
   */
  lemma OccurrencesOne<T>(x: T, lists: seq<seq<T>>)
    ensures Occurrences(x, lists) == 1 <==>
      exists k :: 0 <= k < |lists| && multiset(lists[k])[x] == 1 &&
        forall j :: 0 <= j < |lists| && j != k ==> x !in lists[j]
  {
    if Occurrences(x, lists) == 1 {
      OccurrencesZero(x, lists);
      var k :| 0 <= k < |lists| && x in lists[k];
      OccurrencesCoversEach(x, lists, k);
      forall j | 0 <= j < |lists| && j != k ensures x !in lists[j] {
        if x in lists[j] {
          OccurrencesSingleHolder(x, lists, k, j);
        }
      }
    }
    if exists k :: 0 <= k < |lists| && multiset(lists[k])[x] == 1 &&
        forall j :: 0 <= j < |lists| && j != k ==> x !in lists[j] {
      var k :| 0 <= k < |lists| && multiset(lists[k])[x] == 1 &&
        forall j :: 0 <= j < |lists| && j != k ==> x !in lists[j];
      var without := lists[k := []];
      OccurrencesUpdate(x, lists, k, []);
      OccurrencesZero(x, without);
    }
  }
}
