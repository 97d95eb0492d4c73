/**
 * Items and equipment: the 26-slot inventory, equipping with at most one
 * item per slot, using, picking up and dropping.
 */
module Inventory {
  import opened Wrappers
  import opened Constants
  import opened Tiles
  import opened Pieces
  import opened Classes

  /** The piece is equipment worn in `slot`. */
  predicate EquippedIn(p: GamePiece, slot: string) {
    IsEquipped(p) && p.equipment.value.slot == slot
  }

  /** No two equipped pieces of an inventory share a slot. */
  predicate AtMostOnePerSlot(inventory: seq<GamePiece>) {
    forall j, k ::
      (0 <= j < |inventory| && 0 <= k < |inventory| && j != k
       && IsEquipped(inventory[j]) && IsEquipped(inventory[k])) ==>
      inventory[j].equipment.value.slot != inventory[k].equipment.value.slot
  }

  function SlotFrom(slot: string, inventory: seq<GamePiece>, i: nat): (r: Option<nat>)
    requires i <= |inventory|
    ensures r.Some? ==> i <= r.value < |inventory| && EquippedIn(inventory[r.value], slot)
    ensures r.Some? ==> forall k :: i <= k < r.value ==> !EquippedIn(inventory[k], slot)
    ensures r.None? ==> forall k :: i <= k < |inventory| ==> !EquippedIn(inventory[k], slot)
    decreases |inventory| - i
  {
    if i == |inventory| then None
    else if EquippedIn(inventory[i], slot) then Some(i)
    else SlotFrom(slot, inventory, i + 1)
  }

  /** The position of the first piece equipped in `slot`, if any. */
  function GetEquippedInSlot(slot: string, inventory: seq<GamePiece>): (r: Option<nat>)
    ensures r.Some? ==> r.value < |inventory| && EquippedIn(inventory[r.value], slot)
    ensures r.Some? ==> forall k :: 0 <= k < r.value ==> !EquippedIn(inventory[k], slot)
    ensures r.None? <==> forall k :: 0 <= k < |inventory| ==> !EquippedIn(inventory[k], slot)
  {
    SlotFrom(slot, inventory, 0)
  }

  /** The piece with its equipment's equipped flag set to `on`. */
  function WithFlag(p: GamePiece, on: bool): (q: GamePiece)
    requires p.equipment.Some?
    ensures q.equipment.Some? && q.equipment.value.isEquipped == on
    ensures IsEquipped(q) == on
  {
    p.(equipment := Some(p.equipment.value.(isEquipped := on)))
  }

  /** Take piece k off; nothing happens if it is not worn. */
  function Dequip(inventory: seq<GamePiece>, k: nat): (r: seq<GamePiece>)
    requires k < |inventory| && inventory[k].equipment.Some?
    ensures |r| == |inventory| && r[k] == WithFlag(inventory[k], false) && !IsEquipped(r[k])
    ensures !IsEquipped(inventory[k]) ==> r == inventory
    ensures forall j :: 0 <= j < |inventory| && j != k ==> r[j] == inventory[j]
    ensures AtMostOnePerSlot(inventory) ==> AtMostOnePerSlot(r)
  {
    if !inventory[k].equipment.value.isEquipped then inventory
    else inventory[k := WithFlag(inventory[k], false)]
  }

  /**
   * Put piece k on. Nothing happens if it is already worn; otherwise the
   * first piece worn in the same slot is taken off first.
   */
  function Equip(inventory: seq<GamePiece>, k: nat): (r: seq<GamePiece>)
    requires k < |inventory| && inventory[k].equipment.Some?
    ensures |r| == |inventory| && r[k] == WithFlag(inventory[k], true) && IsEquipped(r[k])
    ensures IsEquipped(inventory[k]) ==> r == inventory
    ensures forall j :: 0 <= j < |inventory| && j != k ==>
              r[j] == inventory[j] ||
              (EquippedIn(inventory[j], inventory[k].equipment.value.slot) && r[j] == WithFlag(inventory[j], false))
    ensures AtMostOnePerSlot(inventory) && !IsEquipped(inventory[k]) ==>
              AtMostOnePerSlot(r) &&
              forall j :: 0 <= j < |inventory| && j != k ==> !EquippedIn(r[j], inventory[k].equipment.value.slot)
  {
    if IsEquipped(inventory[k]) then inventory
    else
      var slot := inventory[k].equipment.value.slot;
      var taken := GetEquippedInSlot(slot, inventory);
      var inv1 := if taken.Some? then Dequip(inventory, taken.value) else inventory;
      inv1[k := WithFlag(inv1[k], true)]
  }

  /** Flip whether piece k is worn. */
  function ToggleEquip(inventory: seq<GamePiece>, k: nat): (r: seq<GamePiece>)
    requires k < |inventory| && inventory[k].equipment.Some?
    ensures |r| == |inventory| && IsEquipped(r[k]) == !IsEquipped(inventory[k])
    ensures r[k] == WithFlag(inventory[k], !IsEquipped(inventory[k]))
    ensures forall j :: 0 <= j < |inventory| && j != k ==>
              r[j] == inventory[j] ||
              (!IsEquipped(inventory[k]) && EquippedIn(inventory[j], inventory[k].equipment.value.slot)
               && r[j] == WithFlag(inventory[j], false))
    ensures AtMostOnePerSlot(inventory) ==> AtMostOnePerSlot(r)
  {
    if IsEquipped(inventory[k]) then Dequip(inventory, k) else Equip(inventory, k)
  }

  /**
   * Equipping an unworn piece raises each of the player's stats by its
   * bonus, less the bonus of the piece it displaces.
   */
  lemma {:induction false} EquipChangesStats(p: GamePiece, k: nat, s: Stat)
    requires p.fighter.Some? && p.name == "player"
    requires k < |p.inventory| && p.inventory[k].equipment.Some? && !IsEquipped(p.inventory[k])
    ensures var taken := GetEquippedInSlot(p.inventory[k].equipment.value.slot, p.inventory);
            StatValue(p.(inventory := Equip(p.inventory, k)), s) ==
              StatValue(p, s) + Bonus(p.inventory[k].equipment.value, s)
                - (if taken.Some? then Bonus(p.inventory[taken.value].equipment.value, s) else 0)
  {
    EquipChangesBonus(p.inventory, k, s);
  }

  /** The inventory-level half of EquipChangesStats. */
  lemma {:induction false} EquipChangesBonus(inv: seq<GamePiece>, k: nat, s: Stat)
    requires k < |inv| && inv[k].equipment.Some? && !IsEquipped(inv[k])
    ensures var taken := GetEquippedInSlot(inv[k].equipment.value.slot, inv);
            InventoryBonus(Equip(inv, k), s) ==
              InventoryBonus(inv, s) + Bonus(inv[k].equipment.value, s)
                - (if taken.Some? then Bonus(inv[taken.value].equipment.value, s) else 0)
  {
    var taken := GetEquippedInSlot(inv[k].equipment.value.slot, inv);
    var inv1 := if taken.Some? then Dequip(inv, taken.value) else inv;
    if taken.Some? {
      InventoryBonusUpdate(inv, taken.value, WithFlag(inv[taken.value], false), s);
    }
    InventoryBonusUpdate(inv1, k, WithFlag(inv1[k], true), s);
  }

  /** Taking a worn piece off lowers each of the player's stats by its bonus. */
  lemma {:induction false} DequipChangesStats(p: GamePiece, k: nat, s: Stat)
    requires p.fighter.Some? && p.name == "player"
    requires k < |p.inventory| && p.inventory[k].equipment.Some?
    ensures StatValue(p.(inventory := Dequip(p.inventory, k)), s) ==
              StatValue(p, s) - (if IsEquipped(p.inventory[k]) then Bonus(p.inventory[k].equipment.value, s) else 0)
  {
    InventoryBonusUpdate(p.inventory, k, WithFlag(p.inventory[k], false), s);
  }

  /** What the item's use function reports; its effect on the world is not modelled. */
  datatype UseOutcome = Cancelled | Used

  /**
   * Use inventory piece k. Equipment is toggled; an item without a use
   * function stays; any other item is used up unless its use was cancelled.
   */
  function UseItem(inventory: seq<GamePiece>, k: nat, outcome: UseOutcome): (r: seq<GamePiece>)
    requires k < |inventory| && inventory[k].item.Some?
    ensures inventory[k].equipment.Some? ==> r == ToggleEquip(inventory, k)
    ensures inventory[k].equipment.None? && (inventory[k].item.value.useFunction.None? || outcome == Cancelled) ==>
              r == inventory
    ensures inventory[k].equipment.None? && inventory[k].item.value.useFunction.Some? && outcome == Used ==>
              |r| == |inventory| - 1 && r == inventory[..k] + inventory[k + 1..]
    ensures AtMostOnePerSlot(inventory) ==> AtMostOnePerSlot(r)
    ensures (forall j :: 0 <= j < |inventory| ==> AiCanFight(inventory[j])) ==>
              forall j :: 0 <= j < |r| ==> AiCanFight(r[j])
  {
    if inventory[k].equipment.Some? then ToggleEquip(inventory, k)
    else if inventory[k].item.value.useFunction.None? then inventory
    else if outcome == Cancelled then inventory
    else
      var r := inventory[..k] + inventory[k + 1..];
      assert forall j :: 0 <= j < |r| ==> r[j] == inventory[if j < k then j else j + 1];
      r
  }

  // ---------------------------------------------------------------------------
  // Picking up and dropping

  /**
   * The inventory after `thing` is added at its end. A piece of equipment
   * is put on straight away when nothing is worn in its slot.
   */
  function AddToInventory(inventory: seq<GamePiece>, thing: GamePiece): (r: seq<GamePiece>)
    ensures |r| == |inventory| + 1 && r[..|inventory|] == inventory
    ensures thing.equipment.None? ==> r[|inventory|] == thing
    ensures thing.equipment.Some? ==>
              (r[|inventory|] == WithFlag(thing, true) <==>
                 IsEquipped(thing) || GetEquippedInSlot(thing.equipment.value.slot, inventory).None?)
    ensures thing.equipment.Some? ==>
              (r[|inventory|] == thing <==>
                 IsEquipped(thing) || GetEquippedInSlot(thing.equipment.value.slot, inventory).Some?)
    ensures AtMostOnePerSlot(inventory) && !IsEquipped(thing) ==> AtMostOnePerSlot(r)
  {
    var inv1 := inventory + [thing];
    assert inv1[..|inventory|] == inventory;
    assert forall j :: 0 <= j < |inventory| ==> inv1[j] == inventory[j];
    if thing.equipment.Some? && GetEquippedInSlot(thing.equipment.value.slot, inv1).None? then
      var r := Equip(inv1, |inventory|);
      assert r[..|inventory|] == inventory;
      r
    else inv1
  }

  /** Where piece j of the list ends up once piece k is removed from it. */
  function Shift(k: nat, j: nat): nat {
    if j > k then j - 1 else j
  }

  /** Take piece k off the map; it must not be the player. */
  function RemoveObject(w: GameMap, k: nat): (r: GameMap)
    requires k < |w.objects| && k != w.player
    ensures r.level == w.level && |r.objects| == |w.objects| - 1
    ensures forall j :: 0 <= j < |w.objects| && j != k ==> r.objects[Shift(k, j)] == w.objects[j]
    ensures r.player == Shift(k, w.player)
    ensures Valid(w) ==> Valid(r)
  {
    var objects := w.objects[..k] + w.objects[k + 1..];
    assert forall j :: 0 <= j < |objects| ==> objects[j] == w.objects[if j < k then j else j + 1];
    GameMap(w.level, objects, Shift(k, w.player))
  }

  /**
   * Creature c picks up the item k lying on the map. With 26 or more pieces
   * carried nothing happens; otherwise the item joins the inventory and
   * leaves the map.
   */
  function PickUp(w: GameMap, k: nat, c: nat): (r: GameMap)
    requires Valid(w) && k < |w.objects| && c < |w.objects| && k != c
    requires w.objects[k].item.Some?
    ensures Valid(r) && r.level == w.level
    ensures |w.objects[c].inventory| >= InventoryCapacity ==> r == w
    ensures |w.objects[c].inventory| < InventoryCapacity ==>
              && |r.objects| == |w.objects| - 1
              && r.player == Shift(k, w.player)
              && r.objects[Shift(k, c)] ==
                   w.objects[c].(inventory := AddToInventory(w.objects[c].inventory, w.objects[k]))
              && forall j :: 0 <= j < |w.objects| && j != k && j != c ==> r.objects[Shift(k, j)] == w.objects[j]
    ensures var c' := if |w.objects[c].inventory| >= InventoryCapacity then c else Shift(k, c);
            |r.objects[c'].inventory| <= InventoryCapacity || r.objects[c'].inventory == w.objects[c].inventory
  {
    var creature := w.objects[c];
    if |creature.inventory| >= InventoryCapacity then w
    else
      var held := creature.(inventory := AddToInventory(creature.inventory, w.objects[k]));
      assert AiCanFight(held) by {
        forall j | 0 <= j < |held.inventory| ensures AiCanFight(held.inventory[j]) {
          if j < |creature.inventory| {
            assert held.inventory[j] == held.inventory[..|creature.inventory|][j];
          }
        }
      }
      var w1 := w.(objects := w.objects[c := held]);
      ReplaceKeepsValid(w, c, held);
      assert w1.objects[k] == w.objects[k];
      RemoveObject(w1, k)
  }

  /**
   * Creature c drops inventory piece k: equipment is taken off first, and
   * the piece goes to the end of the map's list at the creature's position.
   */
  function Drop(w: GameMap, c: nat, k: nat): (r: GameMap)
    requires Valid(w) && c < |w.objects| && k < |w.objects[c].inventory|
    ensures Valid(r) && r.level == w.level && r.player == w.player
    ensures |r.objects| == |w.objects| + 1
    ensures forall j :: 0 <= j < |w.objects| && j != c ==> r.objects[j] == w.objects[j]
    ensures var creature := w.objects[c]; var thing := creature.inventory[k];
            && r.objects[|w.objects|] ==
                 (if thing.equipment.Some? then WithFlag(thing, false) else thing).(x := creature.x, y := creature.y)
            && r.objects[c] == creature.(inventory := creature.inventory[..k] + creature.inventory[k + 1..])
    ensures !IsEquipped(r.objects[|w.objects|])
  {
    var creature := w.objects[c];
    var inv := creature.inventory;
    var inv1 := if inv[k].equipment.Some? then Dequip(inv, k) else inv;
    assert inv1[..k] + inv1[k + 1..] == inv[..k] + inv[k + 1..];
    var dropped := inv1[k].(x := creature.x, y := creature.y);
    var kept := inv1[..k] + inv1[k + 1..];
    assert forall j :: 0 <= j < |kept| ==> kept[j] == inv[if j < k then j else j + 1];
    assert AiCanFight(inv[k]);
    var r := w.(objects := w.objects[c := creature.(inventory := kept)] + [dropped]);
    assert forall j :: 0 <= j < |w.objects| ==> r.objects[j] == w.objects[c := creature.(inventory := kept)][j];
    r
  }

  /**
   * Dropping an item and picking it straight back up leaves the map list as
   * it was and moves the item to the end of the inventory, now lying at
   * the creature's position.
   */
  lemma {:induction false} DropThenPickUp(w: GameMap, c: nat, k: nat)
    requires Valid(w) && c < |w.objects| && k < |w.objects[c].inventory|
    requires |w.objects[c].inventory| <= InventoryCapacity
    requires w.objects[c].inventory[k].item.Some? && w.objects[c].inventory[k].equipment.None?
    ensures var w1 := Drop(w, c, k);
            var w2 := PickUp(w1, |w.objects|, c);
            var creature := w.objects[c]; var inv := creature.inventory;
            && w2.player == w.player && |w2.objects| == |w.objects|
            && (forall j :: 0 <= j < |w.objects| && j != c ==> w2.objects[j] == w.objects[j])
            && w2.objects[c] == creature.(inventory := inv[..k] + inv[k + 1..] + [inv[k].(x := creature.x, y := creature.y)])
  {
    var w1 := Drop(w, c, k);
    assert |w1.objects[c].inventory| < InventoryCapacity;
    var w2 := PickUp(w1, |w.objects|, c);
    forall j | 0 <= j < |w.objects| && j != c ensures w2.objects[j] == w.objects[j] {
      assert Shift(|w.objects|, j) == j;
    }
  }
}
