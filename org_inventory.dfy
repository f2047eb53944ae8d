/**
 * src/pages/dashboard/OrganizationInventory.tsx: the stock-level classifier,
 * saving an inventory item from the form (add or edit), the low-stock alert
 * list and the per-group grid.
 */
module OrgInventory {
  import opened Types
  import opened Seqs
  import opened Storage

  // ---------------------------------------------------------------------------
  // Stock levels

  /** `getStockLevel`: exactly 0 is critical, below 5 low, below 20 adequate, otherwise full. */
  function GetStockLevel(units: int): (level: StockLevel)
    ensures units == 0 <==> level == Critical
    ensures level == Low <==> units != 0 && units < 5
    ensures level == Adequate <==> 5 <= units < 20
    ensures level == Full <==> 20 <= units
  {
    if units == 0 then Critical
    else if units < 5 then Low
    else if units < 20 then Adequate
    else Full
  }

  /** Position of a level on the scale critical < low < adequate < full. */
  function LevelRank(level: StockLevel): int {
    match level
    case Critical => 0
    case Low => 1
    case Adequate => 2
    case Full => 3
  }

  /** Over the units the form accepts (never negative), more units never give a lower level. */
  lemma StockLevelMonotone(a: int, b: int)
    requires 0 <= a <= b
    ensures LevelRank(GetStockLevel(a)) <= LevelRank(GetStockLevel(b))
  {
  }

  /** Negative units, which the form refuses, would be classed low although 0 is critical. */
  lemma NegativeUnitsAreLow(units: int)
    requires units < 0
    ensures GetStockLevel(units) == Low
    ensures LevelRank(GetStockLevel(units)) > LevelRank(GetStockLevel(0))
  {
  }

  /** An item whose recorded level is the one its units give. */
  predicate LevelConsistent(i: InventoryItem) {
    i.stockLevel == GetStockLevel(i.units)
  }

  // ---------------------------------------------------------------------------
  // The form and saving an item

  /** What the inventory form submits. */
  datatype InventoryForm = InventoryForm(bloodGroup: BloodGroup, units: int, expiryDate: string)

  /** The bounds of `inventorySchema`: 0..1000 units and a non-empty expiry date. */
  predicate InventoryFormValid(f: InventoryForm) {
    0 <= f.units <= 1000 && 1 <= |f.expiryDate|
  }

  /** `editingItem?.id || generateId()`: the edited item's id, unless there is none or it is empty. */
  function ItemIdFor(editing: Option<InventoryItem>, freshId: Id): (id: Id)
    ensures editing.Some? && editing.value.id != "" ==> id == editing.value.id
    ensures editing.None? || editing.value.id == "" ==> id == freshId
  {
    if editing.Some? && editing.value.id != "" then editing.value.id else freshId
  }

  /** The item `onSubmit` builds. */
  function FormItem(orgId: Id, f: InventoryForm, id: Id, now: Time): (i: InventoryItem)
    ensures i.id == id && i.organizationId == orgId && i.bloodGroup == f.bloodGroup
    ensures i.units == f.units && i.expiryDate == f.expiryDate && i.lastUpdated == now
    ensures LevelConsistent(i)
    ensures InventoryFormValid(f) ==> 0 <= i.units <= 1000
  {
    InventoryItem(id, orgId, f.bloodGroup, f.units, GetStockLevel(f.units), f.expiryDate, now)
  }

  /**
   * `onSubmit`: without an organization in session nothing happens; otherwise
   * the built item is saved by id, so an edit overwrites and an addition appends.
   */
  method OnSubmit(store: Store, org: Option<User>, editing: Option<InventoryItem>, f: InventoryForm, now: Time, freshId: Id)
    returns (saved: Option<InventoryItem>)
    requires store.Valid()
    modifies store`inventory
    ensures store.Valid()
    ensures org.None? ==> saved.None? && store.inventory == old(store.inventory)
    ensures org.Some? ==>
      && saved == Some(FormItem(org.value.id, f, ItemIdFor(editing, freshId), now))
      && store.inventory == Upsert(old(store.inventory), saved.value, ItemId)
  {
    if org.None? {
      return None;
    }
    var item := FormItem(org.value.id, f, ItemIdFor(editing, freshId), now);
    store.SaveInventoryItem(item);
    saved := Some(item);
  }

  /**
   * Editing a stored item replaces it where it is; adding with an id not yet
   * used appends. Either way every stored level stays consistent with its units.
   */
  lemma SubmitEditsOrAdds(inventory: seq<InventoryItem>, orgId: Id, editing: Option<InventoryItem>, f: InventoryForm, now: Time, freshId: Id)
    requires UniqueKeys(inventory, ItemId)
    requires forall k :: 0 <= k < |inventory| ==> LevelConsistent(inventory[k])
    ensures var item := FormItem(orgId, f, ItemIdFor(editing, freshId), now);
      var after := Upsert(inventory, item, ItemId);
      && (forall k :: 0 <= k < |after| ==> LevelConsistent(after[k]))
      && (editing.Some? && editing.value.id != "" && editing.value in inventory ==>
            && |after| == |inventory| && item in after
            && (exists k :: 0 <= k < |inventory| && inventory[k] == editing.value && after == inventory[k := item])
            && (editing.value in after ==> editing.value == item))
      && (editing.None? && (forall k :: 0 <= k < |inventory| ==> inventory[k].id != freshId) ==>
            after == inventory + [item])
  {
    var item := FormItem(orgId, f, ItemIdFor(editing, freshId), now);
    var after := Upsert(inventory, item, ItemId);
    UpsertKeepsAll(inventory, item, ItemId, (i: InventoryItem) => LevelConsistent(i));
    if editing.Some? && editing.value.id != "" && editing.value in inventory {
      var k :| 0 <= k < |inventory| && inventory[k] == editing.value;
      SaveOverExistingId(inventory, item, ItemId, k);
      assert after[k] == item;
    }
    if editing.None? && (forall k :: 0 <= k < |inventory| ==> inventory[k].id != freshId) {
      SaveWithNewId(inventory, item, ItemId);
    }
  }

  // ---------------------------------------------------------------------------
  // Alerts and the grid

  function IsCriticalOrLow(): InventoryItem -> bool {
    (i: InventoryItem) => i.stockLevel == Critical || i.stockLevel == Low
  }

  /** `criticalItems`: the items recorded as critical or low. */
  function CriticalItems(inventory: seq<InventoryItem>): (c: seq<InventoryItem>)
    ensures |c| <= |inventory|
    ensures forall i :: 0 <= i < |c| ==> c[i].stockLevel == Critical || c[i].stockLevel == Low
  {
    Filter(inventory, IsCriticalOrLow())
  }

  /**
   * When every level is consistent with non-negative units, the alert list is
   * exactly the items with fewer than 5 units, in inventory order.
   */
  lemma CriticalItemsAreUnderFive(inventory: seq<InventoryItem>)
    requires forall k :: 0 <= k < |inventory| ==> LevelConsistent(inventory[k]) && inventory[k].units >= 0
    ensures var c := CriticalItems(inventory);
      forall x :: x in c <==> x in inventory && x.units < 5
  {
    var c := CriticalItems(inventory);
    FilterMultiset(inventory, IsCriticalOrLow());
    forall x ensures x in c <==> x in inventory && x.units < 5 {
      assert x in c <==> multiset(c)[x] > 0;
      if x in inventory {
        var k :| 0 <= k < |inventory| && inventory[k] == x;
        assert LevelConsistent(x);
      }
    }
  }

  function OfGroup(g: BloodGroup): InventoryItem -> bool {
    (i: InventoryItem) => i.bloodGroup == g
  }

  /** The units a grid card shows for a group: the first item of that group, or 0 when there is none. */
  function GridUnits(inventory: seq<InventoryItem>, g: BloodGroup): (units: int)
    ensures (forall k :: 0 <= k < |inventory| ==> inventory[k].bloodGroup != g) ==> units == 0
    ensures var k := IndexWhere(inventory, OfGroup(g));
      k >= 0 ==> units == inventory[k].units
  {
    match Find(inventory, OfGroup(g))
    case None => 0
    case Some(item) => item.units
  }

  /**
   * The level a card shows agrees with the stored level of the first item of
   * its group, and is critical for a group with no item. Items of the same
   * group after the first are not reflected in the card.
   */
  lemma GridLevelAgrees(inventory: seq<InventoryItem>, g: BloodGroup)
    requires forall k :: 0 <= k < |inventory| ==> LevelConsistent(inventory[k])
    ensures var k := IndexWhere(inventory, OfGroup(g));
      && (k >= 0 ==> GetStockLevel(GridUnits(inventory, g)) == inventory[k].stockLevel)
      && (k < 0 ==> GetStockLevel(GridUnits(inventory, g)) == Critical)
  {
  }
}
