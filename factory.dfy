/**
 * ItemFactory.java: builds an item from a type tag. The Java counters are
 * static fields; here they belong to one explicitly created factory object
 * that every caller shares.
 */
module Factory {
  import opened Wrappers
  import opened JavaText
  import opened Lending

  const FactoryVersion: string := "v2.0"

  /** The tag `createItem` expects for each kind (matched ignoring case). */
  function TagOf(kind: Kind): string
  {
    match kind
    case WorkshopKind(_) => "workshop"
    case KitchenKind(_) => "kitchen"
    case GardenKind(_) => "garden"
  }

  /** The kind's own attribute, the `extraInfo` it was made from. */
  function ExtraInfoOf(kind: Kind): string
  {
    match kind
    case WorkshopKind(powerType) => powerType
    case KitchenKind(capacity) => capacity
    case GardenKind(material) => material
  }

  /** The if/else-if chain of `createItem`: the kind it builds, or None where it returns null. */
  function KindFor(tag: string, extraInfo: string): (k: Option<Kind>)
    ensures k.Some? ==> ExtraInfoOf(k.value) == extraInfo && EqualsIgnoreCase(tag, TagOf(k.value))
    ensures k.None? <==> forall kind: Kind :: !EqualsIgnoreCase(tag, TagOf(kind))
  {
    if EqualsIgnoreCase(tag, "workshop") then Some(WorkshopKind(extraInfo))
    else if EqualsIgnoreCase(tag, "kitchen") then Some(KitchenKind(extraInfo))
    else if EqualsIgnoreCase(tag, "garden") then Some(GardenKind(extraInfo))
    else None
  }

  /**
   * Every kind's tag, in any letter case, builds that kind with the given
   * attribute: the three tags never overlap, so the order of the tests
   * does not matter.
   */
  lemma KindForTag(kind: Kind, tag: string, extraInfo: string)
    requires EqualsIgnoreCase(tag, TagOf(kind))
    ensures KindFor(tag, extraInfo) == Some(match kind
      case WorkshopKind(_) => WorkshopKind(extraInfo)
      case KitchenKind(_) => KitchenKind(extraInfo)
      case GardenKind(_) => GardenKind(extraInfo))
  {
  }

  /** Building from a kind's own tag and attribute gives that kind back. */
  lemma KindForRoundTrip(kind: Kind)
    ensures KindFor(TagOf(kind), ExtraInfoOf(kind)) == Some(kind)
  {
    EqualsIgnoreCaseEquivalence(TagOf(kind), TagOf(kind), TagOf(kind));
    KindForTag(kind, TagOf(kind), ExtraInfoOf(kind));
  }

  class ItemFactory {
    var totalItemsCreated: nat
    var workshopItemsCreated: nat

    ghost predicate Valid()
      reads this
    {
      workshopItemsCreated <= totalItemsCreated
    }

    constructor ()
      ensures Valid() && totalItemsCreated == 0 && workshopItemsCreated == 0
    {
      totalItemsCreated := 0;
      workshopItemsCreated := 0;
    }

    /**
     * `createItem(type, id, name, extraInfo)`: counts every call, counts
     * workshop tools separately, and builds a fresh available item of the
     * tagged kind, or returns null for an unknown tag.
     */
    method CreateItem(tag: string, id: string, name: string, extraInfo: string) returns (item: BorrowableItem?)
      requires Valid()
      modifies this
      ensures Valid()
      ensures totalItemsCreated == old(totalItemsCreated) + 1
      ensures workshopItemsCreated == old(workshopItemsCreated) + if EqualsIgnoreCase(tag, "workshop") then 1 else 0
      ensures item == null <==> KindFor(tag, extraInfo).None?
      ensures item != null ==> fresh(item) && item.kind == KindFor(tag, extraInfo).value
      ensures item != null ==> item.id == id && item.name == name
      ensures item != null ==> item.available && item.borrower == null && item.requiredEquipment == []
    {
      totalItemsCreated := totalItemsCreated + 1;
      if EqualsIgnoreCase(tag, "workshop") {
        workshopItemsCreated := workshopItemsCreated + 1;
        item := new BorrowableItem.WorkshopTool(id, name, extraInfo);
      } else if EqualsIgnoreCase(tag, "kitchen") {
        item := new BorrowableItem.KitchenAppliance(id, name, extraInfo);
      } else if EqualsIgnoreCase(tag, "garden") {
        item := new BorrowableItem.GardenTool(id, name, extraInfo);
      } else {
        item := null;
      }
    }
  }
}
