# Library of stuff: lending model

A Dafny model of the console lending core of a small "library of stuff".
The library owns a catalog of items and a list of registered users, and it
keeps a pointer to the active user. Items come in three kinds: workshop
tool, kitchen appliance and garden tool. Each item is either available or
on loan. Each user keeps the list of the items it has borrowed.

- **Borrowing** finds the first catalog item whose id equals the trimmed
  input, ignoring case. If that item is available, it is lent to the active
  user, appended to that user's list, and the user earns 10 loyalty points.
- **Returning** looks only at the active user's own list. The first
  matching item goes back to the library and leaves the list.
- **User selection** picks the first user whose id matches, or else the
  first registered user.
- **The item factory** picks the item kind from a tag and counts what it
  creates.
- **Printing** renders each item kind as a fixed sequence of console lines.

Modules:

- `Wrappers`: `Option`.
- `JavaText`:
  - `String.trim` (chars up to U+0020 at either end);
  - `equalsIgnoreCase` on ASCII letters;
  - the "first element whose id matches" search loop, as the method
    `FindFirst` and its specification `FirstMatch`.
- `Lists`: `List.add` and `List.remove(Object)` on a borrowed list.
- `Holdings`: how often one item occurs across all users' lists.
- `Render`: the `print()` methods, as line sequences.
- `Lending`: the classes `Equipment`, `BorrowableItem` (together with its
  three subclasses) and `User`.
- `Factory`: `ItemFactory`.
- `Ledger`: the lending state as a value, with these parts:
  - the invariant `Inv`;
  - `LendAt` and `ReturnAt`, what a successful borrow and a successful
    return do to that state;
  - the lemmas that both keep `Inv`.
- `Catalog`: the `Library` class and its console transactions.

`Library.Valid()` says three things. There is a registered active user.
Items and users are distinct objects. `Ledger.Inv` holds of the lending
state read off the objects (`Library.Snapshot()`): an item is on loan
exactly when it appears in exactly one user's borrowed list. In that case
it appears there once, and that user is its borrower.

Every transaction is tied to the transition function it implements. After
a successful borrow, `Snapshot() == LendAt(old(Snapshot()), i, a)`. After a
successful return, `Snapshot() == ReturnAt(old(Snapshot()), i, a)`. Any
other outcome leaves the snapshot as it was.

Some methods are called by the library but defined in no source file:
`setBorrowedBy`, `returnToLibrary`, `addLoyaltyPoints`, `getLoyaltyPoints`
and `getMaterial`. The model makes these **assumptions** about them:

- an item has a `borrower` field and a user a `points` field;
- `SetBorrowedBy(u)` makes the item unavailable and records `u`;
- `ReturnToLibrary()` makes it available and clears the borrower;
- `AddLoyaltyPoints(n)` adds `n`.

Nothing else is assumed about them.

The subclasses of `BorrowableItem` become an immutable `kind` field
(`WorkshopKind(powerType)`, `KitchenKind(capacity)`,
`GardenKind(material)`). Each subclass constructor becomes a named
constructor. `getPowerType`, `getCapacity` and the material are
`kind.powerType`, `kind.capacity` and `kind.material`. Ids and names are
`const` fields, so they cannot change after construction. Every getter is
a field read. The factory version is the constant `Factory.FactoryVersion`
(`"v2.0"`).

The console input line is a parameter of each transaction. Each
transaction returns as its outcome the message it would print.

Where the written description of the system and the code disagree, the
model follows the code:

- A return searches only the active user's list. It does not signal "not
  found" or "not on loan": with no match it does nothing and prints
  nothing.
- A borrow of an unknown id prints nothing.
- Borrowed items are kept in a list, not a set. The invariant shows that no
  item appears in a list twice.

## Model

| member | source | states |
|---|---|---|
| Catalog.Library.constructor | src/Library.java:17-23 | builds the catalog WT001, KA001, GT001 in that order, all available, with kinds, names and attributes as seeded and one "Safety Goggles" equipment on the drill; builds users U001, U002, U003 with empty lists and no points; makes U001 active; the factory counted 3 items and 1 workshop tool; `Valid()` holds |
| Catalog.PopulateInitialItems | src/Library.java:53-63 | the three seed items, fresh, distinct and available, as built by the factory; only the drill needs equipment |
| Catalog.PopulateUsers | src/Library.java:65-72 | the three seed users, fresh and distinct, ids and names as seeded, empty lists |
| Catalog.TagsMatch | src/Library.java:55-62 | the seed tags select workshop, kitchen and garden kinds; only "workshop" counts as a workshop tool |
| Catalog.Library.NothingLentValid | src/Library.java:17-23 | a library where nothing is lent and every list is empty satisfies the invariant |
| Catalog.Library.SetActiveUser | src/Library.java:48-50 | the active user becomes the given registered user; the invariant is kept |
| Catalog.Library.SelectActiveUser | src/Library.java:99-116 | the active user becomes the first registered user whose id equals the trimmed line ignoring case, else the first registered user (never unset); `found` tells which; the invariant is kept |
| Catalog.Library.BorrowItem | src/Library.java:118-141 | with no matching id: `NotFound` and nothing changes; if the first matching item is on loan: `NotAvailable` and nothing changes; if it is available: `Borrowed` and the state becomes `LendAt` of the old state at that item and the active user; the invariant is kept |
| Catalog.Library.Lend | src/Library.java:130-134 | the success branch of a borrow moves the state from `l` to `LendAt(l, i, a)` and keeps the invariant |
| Catalog.HandOver | src/Library.java:131-133 | the item becomes unavailable with the user as borrower; the user's list gains the item at the end; the user earns 10 points |
| Catalog.Library.LentSnapshot | src/Library.java:131-133 | once the item and the user show the lent values and nothing else changed, the state read off the objects is `LendAt` |
| Catalog.Library.ReturnItem | src/Library.java:143-165 | with an empty list: `NothingToReturn` and nothing changes; with no match in the active user's own list: `NoMatch` and nothing changes; otherwise `Returned`, the first matching entry is cut out of the list, the item had been on loan to the active user, and the state becomes `ReturnAt` of the old state at that item; the invariant is kept |
| Catalog.Library.OnLoanIndex | src/Library.java:153-161 | an item in the active user's list is a catalog item on loan to that user, so an item held by someone else can never be returned |
| Catalog.Library.TakeBack | src/Library.java:160-162 | the success branch of a return moves the state from `l` to `ReturnAt(l, i, a)` and keeps the invariant |
| Catalog.GiveBack | src/Library.java:161-162 | the item becomes available with no borrower; its first occurrence leaves the user's list |
| Catalog.Library.ReturnedSnapshot | src/Library.java:161-162 | once the item and the user show the returned values and nothing else changed, the state read off the objects is `ReturnAt` |
| Catalog.ItemIds | src/Library.java:128-129 | the ids the borrow and return loops compare, one per item in list order |
| Catalog.UserIds | src/Library.java:107-108 | the ids the selection loop compares, one per user in list order |
| Ledger.LendKeepsInv | src/Library.java:130-134 | lending an available item to a registered user keeps the invariant |
| Ledger.ReturnKeepsInv | src/Library.java:160-162 | returning an item from the list of the user who holds it keeps the invariant |
| Ledger.ReturnKeepsItems | src/Library.java:160-162 | after a return every item is still consistent with the lists |
| Ledger.ReturnKeepsLists | src/User.java:32-34 | removing an entry from a list keeps the list within the catalog |
| Ledger.ReturnUndoesLend | src/Library.java:130-134 | returning an item right after lending it restores every item and every list; only the 10 points remain |
| Ledger.UndoLend | src/User.java:28-34 | the same round trip, for an available item missing from the user's list |
| Ledger.OnLoanIffOneHolder | src/Library.java:130-133 | under the invariant an item is on loan iff exactly one user's list holds it, once; it is available iff no list holds it |
| Ledger.HolderIsBorrower | src/Library.java:131-132 | whoever holds an item in its list is its borrower, and holds it once |
| Ledger.NothingLentInv | src/Library.java:17-23 | a state where nothing is lent and all lists are empty satisfies the invariant |
| Holdings.OccurrencesZero | src/User.java:8 | a total count of 0 means no list holds the item, and conversely |
| Holdings.OccurrencesOne | src/User.java:8 | a total count of 1 means exactly one list holds the item, once, and conversely |
| Holdings.OccurrencesUpdate | src/User.java:28-34 | replacing one list changes the total count by that list's change |
| Holdings.OccurrencesSingleHolder | src/User.java:8 | with a count of at most 1, two lists that hold the item are the same list |
| JavaText.FindFirst | src/Library.java:128-129 | the for-each loop stops at the first id equal to the key ignoring case, or finds none |
| JavaText.FirstMatch | src/Library.java:153-157 | the index found holds a match and no earlier index does; there is none exactly when no id matches |
| JavaText.TrimSlice | src/Library.java:126 | `trim()` keeps a contiguous slice, drops only blanks around it, and the slice has no blank at either end |
| JavaText.TrimIdempotent | src/Library.java:150 | trimming twice is trimming once |
| JavaText.TrimNoBlanks | src/Library.java:105 | a string with no blank at either end is unchanged by `trim()` |
| JavaText.EqualsIgnoreCaseIsLowerEquality | src/Library.java:108 | comparing ignoring case is comparing the lower-cased strings |
| JavaText.EqualsIgnoreCaseEquivalence | src/Library.java:129 | comparing ignoring case is reflexive, symmetric and transitive |
| Lists.RemoveFirst | src/User.java:32-34 | `remove(x)` takes one copy of `x` out of the multiset of entries and leaves the list alone when `x` is absent |
| Lists.RemoveFirstAt | src/User.java:32-34 | when `x` first occurs at index `k`, `remove(x)` cuts out exactly index `k` |
| Lists.RemoveAfterAppend | src/User.java:28-34 | `add(x)` then `remove(x)` restores a list that did not hold `x` |
| Lending.User.constructor | src/User.java:10-14 | a new user has the given id and name, an empty borrowed list and no points |
| Lending.User.Borrow | src/User.java:28-30 | the item is appended at the end; earlier entries are kept |
| Lending.User.ReturnItem | src/User.java:32-34 | the first occurrence of the item leaves the list; an absent item leaves it unchanged |
| Lending.User.AddLoyaltyPoints | src/Library.java:133 | assumption: adds `n` points |
| Lending.BorrowThenReturn | src/User.java:28-34 | `borrow(x)` then `returnItem(x)`, for an x the user did not hold, restores the list and the points |
| Lending.BorrowableItem.WorkshopTool | src/WorkshopTool.java:24-31 | a new workshop tool stores id, name and power type, is available and has no equipment |
| Lending.BorrowableItem.KitchenAppliance | src/KitchenAppliance.java:17-23 | a new kitchen appliance stores id, name and capacity, and is available |
| Lending.BorrowableItem.GardenTool | src/GardenTool.java:17-23 | a new garden tool stores id, name and material, and is available |
| Lending.BorrowableItem.SetAvailable | src/BorrowableItem.java:62-64 | after `setAvailable(b)` the item's availability is b; nothing else changes |
| Lending.BorrowableItem.SetBorrowedBy | src/Library.java:131 | assumption: the item becomes unavailable and records its borrower |
| Lending.BorrowableItem.ReturnToLibrary | src/Library.java:161 | assumption: the item becomes available and has no borrower |
| Lending.BorrowableItem.AddRequiredEquipment | src/WorkshopTool.java:45-47 | the equipment is appended at the end; nothing else changes |
| Lending.BorrowableItem.Print | src/BorrowableItem.java:30 | every kind prints its record between two separators, with id, name and status on fixed lines; a workshop tool prints "None" iff it needs no equipment |
| Lending.Equipment.constructor | src/Equipment.java:24-29 | a new equipment has the given name, condition "Good" and is not safety gear |
| Lending.Equipment.SetCondition | src/Equipment.java:44-46 | the condition becomes the given one; nothing else changes |
| Lending.Equipment.SetSafetyGear | src/Equipment.java:54-56 | the safety-gear flag becomes the given one; nothing else changes |
| Lending.EquipmentNames | src/WorkshopTool.java:69-70 | the names the print loop shows, one per equipment in list order |
| Factory.KindFor | src/ItemFactory.java:17-28 | a kind is built exactly when the tag equals one kind's tag ignoring case, and it carries `extraInfo` as its attribute; no kind (null) otherwise |
| Factory.KindForTag | src/ItemFactory.java:17-27 | each kind's tag, in any letter case, builds that kind |
| Factory.KindForRoundTrip | src/ItemFactory.java:17-27 | building from a kind's own tag and attribute gives the kind back |
| Factory.ItemFactory.constructor | src/ItemFactory.java:9-10 | both counters start at 0 |
| Factory.ItemFactory.CreateItem | src/ItemFactory.java:14-29 | every call adds 1 to the total; a "workshop" tag also adds 1 to the workshop count; the result is null for an unknown tag, else a fresh available item of the tagged kind with the given id, name and attribute |
| Render.StatusLine | src/WorkshopTool.java:62 | "Status: Available" iff available, "Status: On Loan" iff not |
| Render.EquipmentLines | src/WorkshopTool.java:69-71 | one "- name" line per equipment, in list order |
| Render.WorkshopLines | src/WorkshopTool.java:55-74 | separators at both ends, status on line 5, then either "Required Equipment: None" for no equipment or a header followed by one line per equipment in order |
| Render.WorkshopHead | src/WorkshopTool.java:56-62 | the six lines before the equipment section, starting with the separator and ending with the status |
| Render.WorkshopNoneIffEmpty | src/WorkshopTool.java:65-72 | the "None" line appears iff the tool needs no equipment |
| Render.NoneNotInHead | src/WorkshopTool.java:56-62 | no line before the equipment section is the "None" line |
| Render.NoneNotInEquipment | src/WorkshopTool.java:69-71 | no equipment line is the "None" line |
| Render.WorkshopLinesDetermine | src/WorkshopTool.java:55-74 | two workshop tools that print alike agree on id, name, power type, status and equipment names |
| Render.KitchenLines | src/KitchenAppliance.java:39-48 | seven lines with separators at both ends and the status on line 5 |
| Render.KitchenLinesDetermine | src/KitchenAppliance.java:39-48 | two kitchen appliances that print alike agree on id, name, capacity and status |
| Render.GardenLines | src/GardenTool.java:31-40 | seven lines with separators at both ends and the status on line 5 |
| Render.GardenLinesDetermine | src/GardenTool.java:31-40 | two garden tools that print alike agree on id, name, material and status |

## Left out

- The JavaFX GUI (`LibraryGUI.java`). Its borrow never adds the item to
  the user's list, and its return accepts any on-loan item, so it does not
  keep the invariant modelled here.
- Console I/O: the menu loop `startApplication`, `printMenu`,
  `getUserChoice`, `printAllItems`, the listing printed before each prompt,
  and every message. The Scanner line becomes the `line` parameter. Each
  message becomes an outcome value.
- A Scanner with no line left gives the id "" in `selectActiveUser`. The
  model covers this as the call with `line == ""`.
- The lazy singleton `getInstance`: the model constructs one library
  object explicitly.
- `Main.java`, which is only the entry point.
- Java string semantics beyond ASCII. `equalsIgnoreCase` folds only the
  letters A-Z, not the full Unicode case mapping. `trim()` is exact: it
  drops chars up to U+0020.
- `getBorrowedItems` aliasing: a borrowed list is a `seq` field. The
  return transaction reads it once, as the source does, before changing it.
  A caller that kept the Java list object would see later changes; that is
  not modelled.
- Catalog.Library.SetActiveUser: requires a registered user, so that
  `Valid()` holds. Java accepts any reference, including null.
- User selection assigns the active user through `SetActiveUser`. This is
  equivalent to the direct field assignment in the source.
- Factory.ItemFactory.CreateItem: the counters are unbounded. Java's `int`
  counters would wrap after 2^31 - 1 calls.
- Factory.ItemFactory.CreateItem: the static counters are fields of one
  factory object that every caller shares.
- `getTotalItemsCreated`, `getWorkshopItemsCreated`, `getFactoryVersion`
  and the other getters are field reads, so they have no member of their
  own.
- Lending.User.AddLoyaltyPoints, Lending.BorrowableItem.SetBorrowedBy and
  Lending.BorrowableItem.ReturnToLibrary: no source file defines them. Their
  contracts state only the assumed effect listed above.
- `getLoyaltyPoints` is the `points` field; `getMaterial` is
  `kind.material`.
