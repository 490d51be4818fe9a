/**
 * The lending state of the library as a value: the catalog items with their
 * availability and borrower, and the registered users with their borrowed
 * lists and loyalty points. `Inv` is the invariant the console
 * transactions keep; `LendAt` and `ReturnAt` are what a successful borrow
 * and return do to this state.
 */
module Ledger {
  import opened Lists
  import opened Holdings
  import opened Lending

  datatype Ledger = Ledger(
    items: seq<BorrowableItem>,
    available: seq<bool>,
    borrowers: seq<User?>,
    users: seq<User>,
    lists: seq<seq<BorrowableItem>>,
    points: seq<nat>)

  ghost predicate WellFormed(l: Ledger) {
    |l.available| == |l.items| && |l.borrowers| == |l.items| && |l.lists| == |l.users| && |l.points| == |l.users|
  }

  ghost predicate Distinct<T>(s: seq<T>) {
    forall i, j :: 0 <= i < j < |s| ==> s[i] != s[j]
  }

  /** User `k`'s list holds catalog items only. */
  ghost predicate ListOk(l: Ledger, k: int)
    requires WellFormed(l) && 0 <= k < |l.users|
  {
    forall x :: x in l.lists[k] ==> x in l.items
  }

  /**
   * Item `i` is in no list when available and has no borrower; when on
   * loan it has a registered borrower, is in that borrower's list, and
   * occurs once in all lists together.
   */
  ghost predicate ItemOk(l: Ledger, i: int)
    requires WellFormed(l) && 0 <= i < |l.items|
  {
    && Occurrences(l.items[i], l.lists) == (if l.available[i] then 0 else 1)
    && (l.available[i] <==> l.borrowers[i] == null)
    && (!l.available[i] ==> l.borrowers[i] in l.users)
    && forall k :: 0 <= k < |l.users| && !l.available[i] && l.borrowers[i] == l.users[k] ==> l.items[i] in l.lists[k]
  }

  /** Items and users are distinct objects, and every list and every item is consistent. */
  ghost predicate Inv(l: Ledger) {
    && WellFormed(l)
    && Distinct(l.users)
    && Distinct(l.items)
    && (forall k :: 0 <= k < |l.users| ==> ListOk(l, k))
    && (forall i :: 0 <= i < |l.items| ==> ItemOk(l, i))
  }

  /** Item `i` lent to user `a`: on loan, borrowed by `a`, at the end of `a`'s list, and `a` earns 10 points. */
  ghost function LendAt(l: Ledger, i: nat, a: nat): (l': Ledger)
    requires WellFormed(l) && i < |l.items| && a < |l.users|
    ensures WellFormed(l')
  {
    l.(available := l.available[i := false],
       borrowers := l.borrowers[i := l.users[a]],
       lists := l.lists[a := l.lists[a] + [l.items[i]]],
       points := l.points[a := l.points[a] + 10])
  }

  /** Item `i` given back by user `a`: available, no borrower, removed from `a`'s list; points stay. */
  ghost function ReturnAt(l: Ledger, i: nat, a: nat): (l': Ledger)
    requires WellFormed(l) && i < |l.items| && a < |l.users|
    ensures WellFormed(l')
  {
    l.(available := l.available[i := true],
       borrowers := l.borrowers[i := null],
       lists := l.lists[a := RemoveFirst(l.lists[a], l.items[i])])
  }

  /** A catalog where nothing is lent and every list is empty keeps the invariant. */
  lemma NothingLentInv(l: Ledger)
    requires WellFormed(l) && Distinct(l.users) && Distinct(l.items)
    requires forall i :: 0 <= i < |l.items| ==> l.available[i] && l.borrowers[i] == null
    requires forall k :: 0 <= k < |l.lists| ==> l.lists[k] == []
    ensures Inv(l)
  {
    forall i | 0 <= i < |l.items| ensures ItemOk(l, i) {
      OccurrencesZero(l.items[i], l.lists);
    }
    forall k | 0 <= k < |l.users| ensures ListOk(l, k) {
    }
  }

  /**
   * The invariant means: an item is on loan exactly when it appears in
   * exactly one user's list (and once there), and available exactly when it
   * appears in none.
   */
  lemma OnLoanIffOneHolder(l: Ledger, i: nat)
    requires Inv(l) && i < |l.items|
    ensures !l.available[i] <==>
      exists k :: 0 <= k < |l.users| && multiset(l.lists[k])[l.items[i]] == 1 &&
        forall j :: 0 <= j < |l.users| && j != k ==> l.items[i] !in l.lists[j]
    ensures l.available[i] <==> forall k :: 0 <= k < |l.users| ==> l.items[i] !in l.lists[k]
  {
    assert ItemOk(l, i);
    OccurrencesOne(l.items[i], l.lists);
    OccurrencesZero(l.items[i], l.lists);
  }

  /** Whoever holds an item in its list is the item's borrower, and the item is on loan. */
  lemma HolderIsBorrower(l: Ledger, i: nat, k: nat)
    requires Inv(l) && i < |l.items| && k < |l.users|
    requires l.items[i] in l.lists[k]
    ensures !l.available[i] && l.borrowers[i] == l.users[k]
    ensures multiset(l.lists[k])[l.items[i]] == 1
  {
    var x := l.items[i];
    assert ItemOk(l, i);
    OccurrencesZero(x, l.lists);
    OccurrencesCoversEach(x, l.lists, k);
    var b :| 0 <= b < |l.users| && l.users[b] == l.borrowers[i];
    OccurrencesSingleHolder(x, l.lists, b, k);
  }

  /** Lending an available item to a registered user keeps the invariant. */
  lemma LendKeepsInv(l: Ledger, i: nat, a: nat)
    requires Inv(l) && i < |l.items| && a < |l.users| && l.available[i]
    ensures Inv(LendAt(l, i, a))
  {
    var l' := LendAt(l, i, a);
    var x := l.items[i];
    assert ItemOk(l, i);
    assert x !in l.lists[a] by {
      OccurrencesZero(x, l.lists);
    }
    forall j | 0 <= j < |l.items| ensures ItemOk(l', j) {
      assert ItemOk(l, j);
      OccurrencesUpdate(l.items[j], l.lists, a, l.lists[a] + [x]);
      if j != i {
        assert l.items[j] != x;
        forall k | 0 <= k < |l.users| && !l'.available[j] && l'.borrowers[j] == l.users[k]
          ensures l.items[j] in l'.lists[k]
        {
          assert l.items[j] in l.lists[k];
        }
      }
    }
    forall k | 0 <= k < |l.users| ensures ListOk(l', k) {
      assert ListOk(l, k);
    }
  }

  /** Returning an item from the list of the user who holds it keeps the invariant. */
  lemma ReturnKeepsInv(l: Ledger, i: nat, a: nat)
    requires Inv(l) && i < |l.items| && a < |l.users| && l.items[i] in l.lists[a]
    ensures Inv(ReturnAt(l, i, a))
  {
    HolderIsBorrower(l, i, a);
    ReturnKeepsItems(l, i, a);
    ReturnKeepsLists(l, i, a);
  }

  /** The item half of `ReturnKeepsInv`: every item stays consistent. */
  lemma ReturnKeepsItems(l: Ledger, i: nat, a: nat)
    requires Inv(l) && i < |l.items| && a < |l.users| && l.items[i] in l.lists[a]
    requires !l.available[i] && l.borrowers[i] == l.users[a] && multiset(l.lists[a])[l.items[i]] == 1
    ensures forall j :: 0 <= j < |l.items| ==> ItemOk(ReturnAt(l, i, a), j)
  {
    var l' := ReturnAt(l, i, a);
    var x := l.items[i];
    var rest := RemoveFirst(l.lists[a], x);
    assert multiset(rest) == multiset(l.lists[a]) - multiset{x};
    forall j | 0 <= j < |l.items| ensures ItemOk(l', j) {
      assert ItemOk(l, j);
      OccurrencesUpdate(l.items[j], l.lists, a, rest);
      if j != i {
        assert l.items[j] != x;
        forall k | 0 <= k < |l.users| && !l'.available[j] && l'.borrowers[j] == l.users[k]
          ensures l.items[j] in l'.lists[k]
        {
          assert l.items[j] in l.lists[k];
          if k == a {
            assert multiset(rest)[l.items[j]] == multiset(l.lists[a])[l.items[j]];
          }
        }
      }
    }
  }

  /** The list half of `ReturnKeepsInv`: removing from a list keeps it within the catalog. */
  lemma ReturnKeepsLists(l: Ledger, i: nat, a: nat)
    requires WellFormed(l) && i < |l.items| && a < |l.users|
    requires forall k :: 0 <= k < |l.users| ==> ListOk(l, k)
    ensures forall k :: 0 <= k < |l.users| ==> ListOk(ReturnAt(l, i, a), k)
  {
    var l' := ReturnAt(l, i, a);
    var rest := RemoveFirst(l.lists[a], l.items[i]);
    forall k | 0 <= k < |l.users| ensures ListOk(l', k) {
      assert ListOk(l, k);
      if k == a {
        forall y | y in rest ensures y in l.items {
          assert multiset(rest)[y] <= multiset(l.lists[a])[y];
        }
      }
    }
  }

  /**
   * Returning an item right after lending it restores every item and every
   * list; only the 10 points the borrower earned remain.
   */
  lemma ReturnUndoesLend(l: Ledger, i: nat, a: nat)
    requires Inv(l) && i < |l.items| && a < |l.users| && l.available[i]
    ensures ReturnAt(LendAt(l, i, a), i, a) == l.(points := l.points[a := l.points[a] + 10])
  {
    assert ItemOk(l, i);
    assert l.items[i] !in l.lists[a] by {
      OccurrencesZero(l.items[i], l.lists);
    }
    UndoLend(l, i, a);
  }

  /** The round trip itself, for an available item that is not in the list of `a`. */
  lemma UndoLend(l: Ledger, i: nat, a: nat)
    requires WellFormed(l) && i < |l.items| && a < |l.users|
    requires l.available[i] && l.borrowers[i] == null && l.items[i] !in l.lists[a]
    ensures ReturnAt(LendAt(l, i, a), i, a) == l.(points := l.points[a := l.points[a] + 10])
  {
    RemoveAfterAppend(l.lists[a], l.items[i]);
    var r := ReturnAt(LendAt(l, i, a), i, a);
    assert r.available == l.available;
    assert r.borrowers == l.borrowers;
    assert r.lists == l.lists;
  }
}
