/**
 * The objects of the lending model: a piece of equipment, a borrowable item
 * (the abstract BorrowableItem together with its three subclasses) and a
 * user. They live in one module because an item refers to its borrower and
 * a user to the items it holds.
 *
 * The Java subclasses become the `kind` of an item: a workshop tool carries
 * its power type, a kitchen appliance its capacity, a garden tool its
 * material. Each subclass constructor is a named constructor here.
 *
 * `borrower`, `SetBorrowedBy`, `ReturnToLibrary`, `points` and
 * `AddLoyaltyPoints` stand for methods the library calls but that no source
 * file defines; their contracts state only the effect the callers rely on.
 */
module Lending {
  import Render
  import Lists

  /** The subclass of an item, with the one attribute that subclass adds. */
  datatype Kind =
    | WorkshopKind(powerType: string)
    | KitchenKind(capacity: string)
    | GardenKind(material: string)

  /** Equipment that a workshop tool requires (Equipment.java). */
  class Equipment {
    const name: string
    var condition: string
    var safetyGear: bool

    constructor (name: string)
      ensures this.name == name && condition == "Good" && !safetyGear
    {
      this.name := name;
      condition := "Good";
      safetyGear := false;
    }

    method SetCondition(condition: string)
      modifies this`condition
      ensures this.condition == condition
    {
      this.condition := condition;
    }

    method SetSafetyGear(safetyGear: bool)
      modifies this`safetyGear
      ensures this.safetyGear == safetyGear
    {
      this.safetyGear := safetyGear;
    }
  }

  /** The names of a list of equipment, in list order. */
  function EquipmentNames(es: seq<Equipment>): (names: seq<string>)
    ensures |names| == |es| && forall k :: 0 <= k < |es| ==> names[k] == es[k].name
  {
    seq(|es|, k requires 0 <= k < |es| => es[k].name)
  }

  /** An item of the library (BorrowableItem.java and its three subclasses). */
  class BorrowableItem {
    const id: string
    const name: string
    const kind: Kind
    var available: bool
    /** Who holds the item; not declared in any source file (see the module comment). */
    var borrower: User?
    /** Only ever appended to for a workshop tool. */
    var requiredEquipment: seq<Equipment>

    /** `new WorkshopTool(itemID, name, powerType)`. */
    constructor WorkshopTool(id: string, name: string, powerType: string)
      ensures this.id == id && this.name == name && kind == WorkshopKind(powerType)
      ensures available && borrower == null && requiredEquipment == []
    {
      this.id := id;
      this.name := name;
      kind := WorkshopKind(powerType);
      available := true;
      borrower := null;
      requiredEquipment := [];
    }

    /** `new KitchenAppliance(itemID, name, capacity)`. */
    constructor KitchenAppliance(id: string, name: string, capacity: string)
      ensures this.id == id && this.name == name && kind == KitchenKind(capacity)
      ensures available && borrower == null && requiredEquipment == []
    {
      this.id := id;
      this.name := name;
      kind := KitchenKind(capacity);
      available := true;
      borrower := null;
      requiredEquipment := [];
    }

    /** `new GardenTool(itemID, name, material)`. */
    constructor GardenTool(id: string, name: string, material: string)
      ensures this.id == id && this.name == name && kind == GardenKind(material)
      ensures available && borrower == null && requiredEquipment == []
    {
      this.id := id;
      this.name := name;
      kind := GardenKind(material);
      available := true;
      borrower := null;
      requiredEquipment := [];
    }

    method SetAvailable(available: bool)
      modifies this`available
      ensures this.available == available
    {
      this.available := available;
    }

    /** Lending the item to `user`: it is no longer available and records its borrower. */
    method SetBorrowedBy(user: User)
      modifies this`available, this`borrower
      ensures !available && borrower == user
    {
      available := false;
      borrower := user;
    }

    /** Giving the item back: it is available again and has no borrower. */
    method ReturnToLibrary()
      modifies this`available, this`borrower
      ensures available && borrower == null
    {
      available := true;
      borrower := null;
    }

    /** `WorkshopTool.addRequiredEquipment`: defined on workshop tools only. */
    method AddRequiredEquipment(equipment: Equipment)
      requires kind.WorkshopKind?
      modifies this`requiredEquipment
      ensures requiredEquipment == old(requiredEquipment) + [equipment]
    {
      requiredEquipment := requiredEquipment + [equipment];
    }

    /**
     * `print()`, dispatched on the kind: every kind shows the item's record
     * between two separators, id and name in lines 2 and 3 and the status in
     * line 5.
     */
    function Print(): (lines: seq<string>)
      reads this
      ensures 7 <= |lines| && lines[0] == Render.Separator && lines[|lines| - 1] == Render.Separator
      ensures lines[2] == "ID: " + id && lines[3] == "Name: " + name
      ensures lines[5] == Render.StatusLine(available)
      ensures kind.WorkshopKind? ==> (Render.NoEquipment in lines <==> requiredEquipment == [])
    {
      match kind
      case WorkshopKind(powerType) =>
        Render.WorkshopNoneIffEmpty(id, name, powerType, available, EquipmentNames(requiredEquipment));
        Render.WorkshopLines(id, name, powerType, available, EquipmentNames(requiredEquipment))
      case KitchenKind(capacity) => Render.KitchenLines(id, name, capacity, available)
      case GardenKind(material) => Render.GardenLines(id, name, material, available)
    }
  }

  /** A registered user and the items it has borrowed (User.java). */
  class User {
    const id: string
    const name: string
    var borrowed: seq<BorrowableItem>
    /** Loyalty points; not declared in any source file (see the module comment). */
    var points: nat

    constructor (id: string, name: string)
      ensures this.id == id && this.name == name && borrowed == [] && points == 0
    {
      this.id := id;
      this.name := name;
      borrowed := [];
      points := 0;
    }

    /** `borrowedItems.add(item)`. */
    method Borrow(item: BorrowableItem)
      modifies this`borrowed
      ensures borrowed == old(borrowed) + [item]
    {
      borrowed := borrowed + [item];
    }

    /** `borrowedItems.remove(item)`: the first occurrence goes, or nothing when there is none. */
    method ReturnItem(item: BorrowableItem)
      modifies this`borrowed
      ensures borrowed == Lists.RemoveFirst(old(borrowed), item)
      ensures item !in old(borrowed) ==> borrowed == old(borrowed)
    {
      borrowed := Lists.RemoveFirst(borrowed, item);
    }

    method AddLoyaltyPoints(n: nat)
      modifies this`points
      ensures points == old(points) + n
    {
      points := points + n;
    }
  }

  /** `borrow(x)` then `returnItem(x)`, for an x the user did not hold, restores the borrowed list. */
  method BorrowThenReturn(user: User, item: BorrowableItem)
    requires item !in user.borrowed
    modifies user
    ensures user.borrowed == old(user.borrowed)
    ensures user.points == old(user.points)
  {
    user.Borrow(item);
    user.ReturnItem(item);
    Lists.RemoveAfterAppend(old(user.borrowed), item);
  }
}
