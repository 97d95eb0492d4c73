/**
 * Two places where the game's code does something its authors evidently did
 * not intend, each modelled as written next to the corrected behaviour that
 * the rest of the model uses.
 */
module Findings {
  import opened Wrappers
  import opened Constants
  import opened Tiles
  import opened Pieces
  import opened Deaths
  import opened Classes
  import opened Inventory

  // ---------------------------------------------------------------------------
  // A refused pickup still puts the equipment on

  /**
   * Picking up as the code is written: the automatic equip step sits after
   * the capacity check rather than inside its successful branch, so with a
   * full inventory the piece stays on the ground but is marked as worn
   * whenever its slot is free.
   */
  function PickUpAsWritten(w: GameMap, k: nat, c: nat): (r: GameMap)
    requires Valid(w) && k < |w.objects| && c < |w.objects| && k != c
    requires w.objects[k].item.Some?
    ensures Valid(r) && r.level == w.level
    ensures |w.objects[c].inventory| < InventoryCapacity ==> r == PickUp(w, k, c)
    ensures |w.objects[c].inventory| >= InventoryCapacity ==>
              |r.objects| == |w.objects| && r.player == w.player &&
              forall j :: 0 <= j < |w.objects| && j != k ==> r.objects[j] == w.objects[j]
  {
    var creature := w.objects[c];
    var thing := w.objects[k];
    if |creature.inventory| < InventoryCapacity then PickUp(w, k, c)
    else if thing.equipment.Some? && GetEquippedInSlot(thing.equipment.value.slot, creature.inventory).None? then
      var r := w.(objects := w.objects[k := WithFlag(thing, true)]);
      assert AiCanFight(r.objects[k]);
      r
    else w
  }

  /**
   * The discrepancy: a creature with a full inventory and nothing worn in the
   * slot tries to pick up an unworn piece of equipment. The corrected pickup
   * leaves the world exactly as it was; the code as written leaves the piece
   * on the ground marked as worn.
   */
  lemma {:induction false} RefusedPickUpStillEquips(w: GameMap, k: nat, c: nat)
    requires Valid(w) && k < |w.objects| && c < |w.objects| && k != c
    requires w.objects[k].item.Some? && w.objects[k].equipment.Some? && !IsEquipped(w.objects[k])
    requires |w.objects[c].inventory| >= InventoryCapacity
    requires forall j :: 0 <= j < |w.objects[c].inventory| ==>
               !EquippedIn(w.objects[c].inventory[j], w.objects[k].equipment.value.slot)
    ensures PickUp(w, k, c) == w
    ensures var r := PickUpAsWritten(w, k, c);
            r != w && IsEquipped(r.objects[k]) && r.objects[k] == WithFlag(w.objects[k], true)
  {
    var r := PickUpAsWritten(w, k, c);
    assert !IsEquipped(w.objects[k]) && IsEquipped(r.objects[k]);
  }

  // ---------------------------------------------------------------------------
  // The player cannot be found again after dying

  function NameFrom(objects: seq<GamePiece>, i: nat): (r: nat)
    requires i <= |objects|
    ensures i <= r <= |objects|
    ensures r < |objects| ==> objects[r].name == "player"
    ensures forall k :: i <= k < r ==> objects[k].name != "player"
    decreases |objects| - i
  {
    if i == |objects| then i
    else if objects[i].name == "player" then i
    else NameFrom(objects, i + 1)
  }

  /**
   * How the drawing pass and the key handler find the player: the position
   * of the first piece named "player", counting on to the end of the list
   * when there is none.
   */
  function PlayerIndexByName(objects: seq<GamePiece>): (r: nat)
    ensures r <= |objects|
    ensures r < |objects| ==> objects[r].name == "player"
    ensures forall k :: 0 <= k < r ==> objects[k].name != "player"
  {
    NameFrom(objects, 0)
  }

  /**
   * The discrepancy: the blow that kills the player renames it "remains of
   * player", so on the next frame the search by name runs off the end of
   * the list and the lookup that follows it is out of range.
   */
  lemma {:induction false} DeadPlayerLostByName(w: GameMap, damage: int)
    requires Valid(w) && w.objects[w.player].name == "player"
    requires forall k :: 0 <= k < |w.objects| && k != w.player ==> w.objects[k].name != "player"
    requires Kills(w.objects[w.player], damage)
    ensures PlayerIndexByName(w.objects) == w.player
    ensures var r := TakeDamage(w, w.player, damage);
            PlayerIndexByName(r.objects) == |r.objects|
  {
    var r := TakeDamage(w, w.player, damage);
    assert forall k :: 0 <= k < |w.objects| ==> HitIndex(w, w.player, damage, k) == k;
    assert r.objects[w.player].name == CorpsePrefix + "player";
    forall k | 0 <= k < |r.objects| ensures r.objects[k].name != "player" {
      if k == w.player {
        assert r.objects[k].name[..|CorpsePrefix|] == CorpsePrefix;
      } else {
        assert r.objects[k] == w.objects[k];
      }
    }
  }

  /**
   * The correction the model uses: the world tracks the player's position
   * in the list. After a killing blow it still names a piece, and that
   * piece is the player's corpse, still able to fight.
   */
  lemma {:induction false} TrackedPlayerSurvivesDeath(w: GameMap, damage: int)
    requires Valid(w) && Kills(w.objects[w.player], damage)
    ensures var r := TakeDamage(w, w.player, damage);
            && r.player == w.player && r.player < |r.objects|
            && r.objects[r.player] == PlayerCorpse(Wounded(w.objects[w.player], damage)).0
            && r.objects[r.player].fighter.Some?
            && r.objects[r.player].fighter.value.hp <= 0
  {
    assert HitIndex(w, w.player, damage, w.player) == w.player;
  }
}
