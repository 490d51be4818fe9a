/**
 * Library.java: the catalog that owns all items and users, the active-user
 * pointer, and the console transactions borrow, return and user selection.
 * The line typed at the console is a parameter; the loop, the menu and the
 * messages are left out, and each transaction reports which message it
 * would print as its outcome.
 */
module Catalog {
  import opened Wrappers
  import opened JavaText
  import opened Lists
  import opened Holdings
  import opened Lending
  import opened Factory
  import opened Ledger

  datatype BorrowOutcome = Borrowed | NotAvailable | NotFound
  datatype ReturnOutcome = Returned | NoMatch | NothingToReturn

  /** The ids of a list of items, in list order. */
  function ItemIds(items: seq<BorrowableItem>): (ids: seq<string>)
    ensures |ids| == |items| && forall k :: 0 <= k < |items| ==> ids[k] == items[k].id
  {
    seq(|items|, k requires 0 <= k < |items| => items[k].id)
  }

  /** The ids of a list of users, in list order. */
  function UserIds(users: seq<User>): (ids: seq<string>)
    ensures |ids| == |users| && forall k :: 0 <= k < |users| ==> ids[k] == users[k].id
  {
    seq(|users|, k requires 0 <= k < |users| => users[k].id)
  }

  /** The availability flag of each item, in list order. */
  ghost function Availability(items: seq<BorrowableItem>): (flags: seq<bool>)
    reads items
    ensures |flags| == |items| && forall k :: 0 <= k < |items| ==> flags[k] == items[k].available
  {
    seq(|items|, k reads items requires 0 <= k < |items| => items[k].available)
  }

  /** The borrower of each item, in list order. */
  ghost function Borrowers(items: seq<BorrowableItem>): (borrowers: seq<User?>)
    reads items
    ensures |borrowers| == |items| && forall k :: 0 <= k < |items| ==> borrowers[k] == items[k].borrower
  {
    seq(|items|, k reads items requires 0 <= k < |items| => items[k].borrower)
  }

  /** Each user's borrowed list, one per registered user, in registration order. */
  ghost function BorrowedLists(users: seq<User>): (lists: seq<seq<BorrowableItem>>)
    reads users
    ensures |lists| == |users| && forall k :: 0 <= k < |users| ==> lists[k] == users[k].borrowed
  {
    seq(|users|, k reads users requires 0 <= k < |users| => users[k].borrowed)
  }

  /** Each user's loyalty points, in registration order. */
  ghost function PointsOf(users: seq<User>): (points: seq<nat>)
    reads users
    ensures |points| == |users| && forall k :: 0 <= k < |users| ==> points[k] == users[k].points
  {
    seq(|users|, k reads users requires 0 <= k < |users| => users[k].points)
  }

  /** The seed tags select the kinds `populateInitialItems` asks for. */
  lemma TagsMatch()
    ensures KindFor("workshop", "Battery") == Some(WorkshopKind("Battery"))
    ensures KindFor("kitchen", "1.5 Litres") == Some(KitchenKind("1.5 Litres"))
    ensures KindFor("garden", "Carbon Steel") == Some(GardenKind("Carbon Steel"))
    ensures EqualsIgnoreCase("workshop", "workshop")
    ensures !EqualsIgnoreCase("kitchen", "workshop") && !EqualsIgnoreCase("garden", "workshop")
  {
    KindForRoundTrip(WorkshopKind("Battery"));
    KindForRoundTrip(KitchenKind("1.5 Litres"));
    KindForRoundTrip(GardenKind("Carbon Steel"));
    EqualsIgnoreCaseEquivalence("workshop", "workshop", "workshop");
  }

  /** `populateInitialItems`: the three seed items, built by the factory; the drill needs safety goggles. */
  method PopulateInitialItems(factory: ItemFactory) returns (items: seq<BorrowableItem>)
    requires factory.Valid()
    modifies factory
    ensures factory.Valid()
    ensures factory.totalItemsCreated == old(factory.totalItemsCreated) + 3
    ensures factory.workshopItemsCreated == old(factory.workshopItemsCreated) + 1
    ensures ItemIds(items) == ["WT001", "KA001", "GT001"]
    ensures forall i :: 0 <= i < |items| ==> fresh(items[i]) && items[i].available && items[i].borrower == null
    ensures items[0] != items[1] && items[0] != items[2] && items[1] != items[2]
    ensures items[0].kind == WorkshopKind("Battery") && items[0].name == "Cordless Drill"
    ensures items[1].kind == KitchenKind("1.5 Litres") && items[1].name == "High-Speed Blender"
    ensures items[2].kind == GardenKind("Carbon Steel") && items[2].name == "Digging Spade"
    ensures EquipmentNames(items[0].requiredEquipment) == ["Safety Goggles"]
    ensures items[1].requiredEquipment == [] && items[2].requiredEquipment == []
  {
    TagsMatch();
    var drill := factory.CreateItem("workshop", "WT001", "Cordless Drill", "Battery");
    var goggles := new Equipment("Safety Goggles");
    drill.AddRequiredEquipment(goggles);
    var blender := factory.CreateItem("kitchen", "KA001", "High-Speed Blender", "1.5 Litres");
    var spade := factory.CreateItem("garden", "GT001", "Digging Spade", "Carbon Steel");
    items := [drill, blender, spade];
    assert EquipmentNames(items[0].requiredEquipment) == ["Safety Goggles"];
  }

  /** `populateUsers`: the three registered users, none holding anything yet. */
  method PopulateUsers() returns (users: seq<User>)
    ensures UserIds(users) == ["U001", "U002", "U003"]
    ensures users[0].name == "Alice Smith" && users[1].name == "Bob Jones" && users[2].name == "Charlie Brown"
    ensures forall i :: 0 <= i < |users| ==> fresh(users[i]) && users[i].borrowed == [] && users[i].points == 0
    ensures users[0] != users[1] && users[0] != users[2] && users[1] != users[2]
  {
    var alice := new User("U001", "Alice Smith");
    var bob := new User("U002", "Bob Jones");
    var charlie := new User("U003", "Charlie Brown");
    users := [alice, bob, charlie];
  }

  /**
   * The three calls of a successful borrow: the item records its borrower,
   * the user appends it to its list and earns 10 loyalty points.
   */
  method HandOver(item: BorrowableItem, user: User)
    modifies item`available, item`borrower, user`borrowed, user`points
    ensures !item.available && item.borrower == user
    ensures user.borrowed == old(user.borrowed) + [item] && user.points == old(user.points) + 10
  {
    item.SetBorrowedBy(user);
    user.Borrow(item);
    user.AddLoyaltyPoints(10);
  }

  /** The two calls of a successful return: the item is released, then it leaves the user's list. */
  method GiveBack(item: BorrowableItem, user: User)
    modifies item`available, item`borrower, user`borrowed
    ensures item.available && item.borrower == null
    ensures user.borrowed == RemoveFirst(old(user.borrowed), item)
  {
    item.ReturnToLibrary();
    user.ReturnItem(item);
  }

  class Library {
    var items: seq<BorrowableItem>
    var users: seq<User>
    var active: User

    /** The lending state of the catalog, read off the objects. */
    ghost function Snapshot(): (l: Ledger)
      reads this`items, this`users, items, users
      ensures WellFormed(l) && l.items == items && l.users == users
    {
      Ledger(items,
             Availability(items),
             Borrowers(items),
             users,
             BorrowedLists(users),
             PointsOf(users))
    }

    /** There is always an active user, it is registered, and the lending state keeps `Inv`. */
    ghost predicate Valid()
      reads this, items, users
    {
      |users| > 0 && active in users && Inv(Snapshot())
    }

    /**
     * `new Library()`: seeds the catalog and the users, and makes the first
     * registered user the active one.
     */
    constructor (factory: ItemFactory)
      requires factory.Valid()
      modifies factory
      ensures factory.Valid()
      ensures ItemIds(items) == ["WT001", "KA001", "GT001"]
      ensures items[0].kind == WorkshopKind("Battery") && items[0].name == "Cordless Drill"
      ensures items[1].kind == KitchenKind("1.5 Litres") && items[1].name == "High-Speed Blender"
      ensures items[2].kind == GardenKind("Carbon Steel") && items[2].name == "Digging Spade"
      ensures forall i :: 0 <= i < |items| ==> items[i].available
      ensures EquipmentNames(items[0].requiredEquipment) == ["Safety Goggles"]
      ensures items[1].requiredEquipment == [] && items[2].requiredEquipment == []
      ensures UserIds(users) == ["U001", "U002", "U003"]
      ensures users[0].name == "Alice Smith" && users[1].name == "Bob Jones" && users[2].name == "Charlie Brown"
      ensures forall k :: 0 <= k < |users| ==> users[k].borrowed == [] && users[k].points == 0
      ensures active == users[0]
      ensures factory.totalItemsCreated == old(factory.totalItemsCreated) + 3
      ensures factory.workshopItemsCreated == old(factory.workshopItemsCreated) + 1
      ensures Valid()
    {
      var seedItems := PopulateInitialItems(factory);
      var seedUsers := PopulateUsers();
      items := seedItems;
      users := seedUsers;
      active := seedUsers[0];
      new;
      NothingLentValid();
    }

    /** With nothing lent and every list empty, the library is `Valid`. */
    lemma NothingLentValid()
      requires |users| > 0 && active in users && Distinct(items) && Distinct(users)
      requires forall i :: 0 <= i < |items| ==> items[i].available && items[i].borrower == null
      requires forall k :: 0 <= k < |users| ==> users[k].borrowed == []
      ensures Valid()
    {
      NothingLentInv(Snapshot());
    }

    /** `setActiveUser`: any registered user can be made the active one. */
    method SetActiveUser(user: User)
      requires Valid() && user in users
      modifies this`active
      ensures active == user
      ensures Valid()
    {
      active := user;
    }

    /**
     * `selectActiveUser()`: the first registered user whose id equals the
     * trimmed line ignoring case becomes active; when there is none, the
     * first registered user does. `found` tells which message is printed.
     */
    method SelectActiveUser(line: string) returns (found: bool)
      requires Valid()
      modifies this`active
      ensures var m := FirstMatch(UserIds(users), Trim(line));
        && found == m.Some?
        && active == if m.Some? then users[m.value] else users[0]
      ensures Valid()
    {
      var m := FindFirst(UserIds(users), Trim(line));
      if m.Some? {
        SetActiveUser(users[m.value]);
        found := true;
      } else {
        SetActiveUser(users[0]);
        found := false;
      }
    }

    /** The position of the active user among the registered users. */
    ghost function ActiveIndex(): (a: nat)
      reads this`users, this`active
      requires active in users
      ensures a < |users| && users[a] == active
    {
      var a :| 0 <= a < |users| && users[a] == active; a
    }

    /** The position of a catalog item in the catalog. */
    ghost function CatalogIndex(x: BorrowableItem): (i: nat)
      reads this`items
      requires x in items
      ensures i < |items| && items[i] == x
    {
      var i :| 0 <= i < |items| && items[i] == x; i
    }

    /**
     * When every catalog item but `i` and every registered user but `a`
     * still show what `l` records, the snapshot is `l` with column `i` of
     * the items and row `a` of the users read afresh.
     */
    lemma SnapshotAfter(l: Ledger, i: nat, a: nat)
      requires WellFormed(l) && l.items == items && l.users == users && i < |items| && a < |users|
      requires forall j :: 0 <= j < |items| && j != i ==> items[j].available == l.available[j] && items[j].borrower == l.borrowers[j]
      requires forall b :: 0 <= b < |users| && b != a ==> users[b].borrowed == l.lists[b] && users[b].points == l.points[b]
      ensures Snapshot() == l.(available := l.available[i := items[i].available],
                               borrowers := l.borrowers[i := items[i].borrower],
                               lists := l.lists[a := users[a].borrowed],
                               points := l.points[a := users[a].points])
    {
    }

    /** Once item `i` is lent to user `a` and nothing else differs from `l`, the snapshot is `LendAt(l, i, a)`. */
    lemma LentSnapshot(l: Ledger, i: nat, a: nat)
      requires WellFormed(l) && l.items == items && l.users == users && i < |items| && a < |users|
      requires forall j :: 0 <= j < |items| && j != i ==> items[j].available == l.available[j] && items[j].borrower == l.borrowers[j]
      requires forall b :: 0 <= b < |users| && b != a ==> users[b].borrowed == l.lists[b] && users[b].points == l.points[b]
      requires !items[i].available && items[i].borrower == users[a]
      requires users[a].borrowed == l.lists[a] + [items[i]] && users[a].points == l.points[a] + 10
      ensures Snapshot() == LendAt(l, i, a)
    {
      SnapshotAfter(l, i, a);
    }

    /**
     * The success branch of `borrowItem()`: `item`, catalog entry `i`,
     * records the active user `a` as its borrower; `a` appends it to its
     * list and earns 10 loyalty points.
     */
    method Lend(item: BorrowableItem, ghost i: nat, ghost a: nat)
      requires Valid() && i < |items| && items[i] == item && item.available && a < |users| && users[a] == active
      modifies item`available, item`borrower, active`borrowed, active`points
      ensures Snapshot() == LendAt(old(Snapshot()), i, a)
      ensures Valid()
    {
      ghost var l := Snapshot();
      assert Distinct(items) && Distinct(users);
      assert l.lists[a] == active.borrowed && l.points[a] == active.points;
      HandOver(item, active);
      forall j | 0 <= j < |items| && j != i
        ensures items[j].available == l.available[j] && items[j].borrower == l.borrowers[j]
      {
        assert items[j] != item;
      }
      forall b | 0 <= b < |users| && b != a ensures users[b].borrowed == l.lists[b] && users[b].points == l.points[b] {
        assert users[b] != active;
      }
      LentSnapshot(l, i, a);
      LendKeepsInv(l, i, a);
    }

    /**
     * `borrowItem()`: the first catalog item whose id equals the trimmed
     * line ignoring case is lent to the active user if it is available.
     * Any other case changes nothing.
     */
    method BorrowItem(line: string) returns (outcome: BorrowOutcome)
      requires Valid()
      modifies items`available, items`borrower, users`borrowed, users`points
      ensures var m := FirstMatch(ItemIds(items), Trim(line));
        if m.None? then outcome == NotFound && Snapshot() == old(Snapshot())
        else if old(items[m.value].available) then
          outcome == Borrowed && Snapshot() == LendAt(old(Snapshot()), m.value, ActiveIndex())
        else outcome == NotAvailable && Snapshot() == old(Snapshot())
      ensures Valid()
    {
      var m := FindFirst(ItemIds(items), Trim(line));
      if m.None? {
        outcome := NotFound;
      } else if items[m.value].available {
        Lend(items[m.value], m.value, ActiveIndex());
        outcome := Borrowed;
      } else {
        outcome := NotAvailable;
      }
    }

    /** An item in the active user's list is a catalog item lent to that user. */
    lemma OnLoanIndex(x: BorrowableItem) returns (i: nat)
      requires Valid() && x in active.borrowed
      ensures i < |items| && items[i] == x && !x.available && x.borrower == active
    {
      ghost var l := Snapshot();
      ghost var a := ActiveIndex();
      assert x in l.lists[a] && ListOk(l, a);
      i :| 0 <= i < |items| && items[i] == x;
      HolderIsBorrower(l, i, a);
    }

    /** Once item `i` is back from user `a` and nothing else differs from `l`, the snapshot is `ReturnAt(l, i, a)`. */
    lemma ReturnedSnapshot(l: Ledger, i: nat, a: nat)
      requires WellFormed(l) && l.items == items && l.users == users && i < |items| && a < |users|
      requires forall j :: 0 <= j < |items| && j != i ==> items[j].available == l.available[j] && items[j].borrower == l.borrowers[j]
      requires forall b :: 0 <= b < |users| && b != a ==> users[b].borrowed == l.lists[b] && users[b].points == l.points[b]
      requires items[i].available && items[i].borrower == null
      requires users[a].borrowed == RemoveFirst(l.lists[a], items[i]) && users[a].points == l.points[a]
      ensures Snapshot() == ReturnAt(l, i, a)
    {
      SnapshotAfter(l, i, a);
    }

    /**
     * The success branch of `returnItem()`: `item`, catalog entry `i` and
     * on loan to the active user `a`, goes back to the library and its
     * first occurrence leaves `a`'s list.
     */
    method TakeBack(item: BorrowableItem, ghost i: nat, ghost a: nat)
      requires Valid() && i < |items| && items[i] == item && a < |users| && users[a] == active
      requires !item.available && item.borrower == active
      modifies item`available, item`borrower, active`borrowed
      ensures Snapshot() == ReturnAt(old(Snapshot()), i, a)
      ensures Valid()
    {
      ghost var l := Snapshot();
      assert item in l.lists[a] by { assert ItemOk(l, i); }
      assert Distinct(items) && Distinct(users);
      assert l.lists[a] == active.borrowed && l.points[a] == active.points;
      GiveBack(item, active);
      forall j | 0 <= j < |items| && j != i
        ensures items[j].available == l.available[j] && items[j].borrower == l.borrowers[j]
      {
        assert items[j] != item;
      }
      forall b | 0 <= b < |users| && b != a ensures users[b].borrowed == l.lists[b] && users[b].points == l.points[b] {
        assert users[b] != active;
      }
      ReturnedSnapshot(l, i, a);
      ReturnKeepsInv(l, i, a);
    }

    /**
     * `returnItem()`: with nothing borrowed there is nothing to do;
     * otherwise the first item of the active user's own list whose id equals
     * the trimmed line ignoring case goes back to the library. Items held
     * by other users are never looked at.
     */
    method ReturnItem(line: string) returns (outcome: ReturnOutcome)
      requires Valid()
      modifies items`available, items`borrower, users`borrowed
      ensures var m := FirstMatch(ItemIds(old(active.borrowed)), Trim(line));
        if old(active.borrowed) == [] then outcome == NothingToReturn && Snapshot() == old(Snapshot())
        else if m.None? then outcome == NoMatch && Snapshot() == old(Snapshot())
        else
          var it := old(active.borrowed[m.value]);
          && outcome == Returned
          && old(!it.available && it.borrower == active)
          && active.borrowed == old(active.borrowed[..m.value] + active.borrowed[m.value + 1..])
          && it in items
          && Snapshot() == ReturnAt(old(Snapshot()), CatalogIndex(it), ActiveIndex())
      ensures Valid()
    {
      var userItems := active.borrowed;
      if userItems == [] {
        outcome := NothingToReturn;
        return;
      }
      var m := FindFirst(ItemIds(userItems), Trim(line));
      if m.Some? {
        var k := m.value;
        var item := userItems[k];
        assert item !in userItems[..k];
        ghost var i := OnLoanIndex(item);
        assert i == CatalogIndex(item) by { assert Distinct(items); }
        ghost var a := ActiveIndex();
        RemoveFirstAt(userItems, item, k);
        TakeBack(item, i, a);
        assert CatalogIndex(item) == i && ActiveIndex() == a;
        outcome := Returned;
      } else {
        outcome := NoMatch;
      }
    }
  }
}
