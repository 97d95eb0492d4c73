/**
 * The game's entities and the world record they live in.
 *
 * A `GamePiece` is anything drawn on the map: the player, NPCs, items,
 * stairs. Its optional components (fighter, AI, item, equipment) are owned
 * outright; the back-reference from a component to its owner is implicit,
 * since a component is only ever reached through its piece.
 *
 * The game keeps the current map, its object list and the player in module
 * globals; here they are one explicit `GameMap` value carrying the index of
 * the player in the object list.
 */
module Pieces {
  import opened Wrappers
  import opened Constants
  import opened Tiles

  /** The death callbacks a fighter can carry. */
  datatype DeathFn = PlayerDeath | NpcDeath

  /** The use functions an item can carry. */
  datatype Spell = CastHeal | CastLightning | CastConfuse | CastFireball

  datatype GameState = Playing | Dead

  datatype Fighter = Fighter(
    baseMaxHp: int,
    hp: int,
    baseDefense: int,
    basePower: int,
    xp: int,
    deathFunction: Option<DeathFn>,
    attackSpeed: int)

  datatype Item = Item(useFunction: Option<Spell>)

  datatype Equipment = Equipment(
    slot: string,
    powerBonus: int,
    defenseBonus: int,
    maxHpBonus: int,
    isEquipped: bool)

  /** One cell of an explorer's private pathfinding map. */
  datatype PathCell = PathCell(transparent: bool, walkable: bool)

  /**
   * The AI behaviours. A confused NPC keeps the behaviour it will return to;
   * an explorer keeps its pathfinding map and the rest of its current path.
   */
  datatype Ai =
    | BasicNpc
    | Confused(oldAi: Ai, numTurns: int)
    | Explorer(pathMap: seq<seq<PathCell>>, path: seq<Cell>)

  datatype GamePiece = GamePiece(
    x: int,
    y: int,
    glyph: char,
    name: string,
    blocks: bool,
    alwaysVisible: bool,
    fighter: Option<Fighter>,
    ai: Option<Ai>,
    item: Option<Item>,
    equipment: Option<Equipment>,
    speed: int,
    wait: int,                 // turns left before this piece may act again
    inventory: seq<GamePiece>,
    scifiName: Option<string>,
    spoken: bool)              // the NPC has introduced itself

  /** One play area: its tiles, the pieces lying on it, and which one is the player. */
  datatype GameMap = GameMap(level: Grid, objects: seq<GamePiece>, player: nat)

  function NewFighter(hp: int, defense: int, power: int, xp: int,
                      deathFunction: Option<DeathFn> := None,
                      attackSpeed: int := DefaultAttackSpeed): (f: Fighter)
    ensures f.baseMaxHp == hp && f.hp == hp
    ensures f.baseDefense == defense && f.basePower == power && f.xp == xp
    ensures f.deathFunction == deathFunction && f.attackSpeed == attackSpeed
  {
    Fighter(hp, hp, defense, power, xp, deathFunction, attackSpeed)
  }

  /**
   * A new piece starts ready to act (wait 0), unnamed and silent. Equipment
   * always comes with a fresh item component, replacing any item given.
   */
  function NewGamePiece(x: int, y: int, glyph: char, name: string,
                        blocks: bool := false, alwaysVisible: bool := false,
                        fighter: Option<Fighter> := None, ai: Option<Ai> := None,
                        item: Option<Item> := None, equipment: Option<Equipment> := None,
                        speed: int := DefaultSpeed,
                        inventory: Option<seq<GamePiece>> := None): (p: GamePiece)
    ensures p.x == x && p.y == y && p.glyph == glyph && p.name == name
    ensures p.blocks == blocks && p.fighter == fighter && p.ai == ai && p.equipment == equipment
    ensures p.wait == 0 && p.speed == speed
    ensures !p.spoken && p.scifiName == None
    ensures inventory.None? ==> p.inventory == []
    ensures inventory.Some? ==> p.inventory == inventory.value
    ensures equipment.Some? ==> p.item == Some(Item(None))
    ensures equipment.None? ==> p.item == item
  {
    GamePiece(x, y, glyph, name, blocks, alwaysVisible, fighter, ai,
              if equipment.Some? then Some(Item(None)) else item,
              equipment, speed, 0,
              if inventory.Some? then inventory.value else [],
              None, false)
  }

  // ---------------------------------------------------------------------------
  // Drawing order

  /** Where element k of a list ends up once element i is moved to the front. */
  function FrontIndex(i: nat, k: nat): nat {
    if k == i then 0 else if k < i then k + 1 else k
  }

  /** Move element i to the front, keeping everything else in order. */
  function SendToBack<T>(s: seq<T>, i: nat): (r: seq<T>)
    requires i < |s|
    ensures |r| == |s| && multiset(r) == multiset(s)
    ensures r[0] == s[i]
    ensures forall k :: 0 <= k < |s| ==> r[FrontIndex(i, k)] == s[k]
  {
    var r := [s[i]] + s[..i] + s[i + 1..];
    assert s == s[..i] + [s[i]] + s[i + 1..];
    r
  }

  /** The other elements keep their relative order. */
  lemma {:induction false} FrontIndexKeepsOrder(i: nat, j: nat, k: nat)
    requires j < k && j != i && k != i
    ensures FrontIndex(i, j) < FrontIndex(i, k)
  {
  }

  /** Sending the front element to the back changes nothing. */
  lemma {:induction false} SendToBackOfFront<T>(s: seq<T>)
    requires 0 < |s|
    ensures SendToBack(s, 0) == s
  {
    assert forall k :: 0 <= k < |s| ==> SendToBack(s, 0)[FrontIndex(0, k)] == s[k];
  }

  /** The world after piece i is moved to the front of the object list. */
  function SendToBackWorld(w: GameMap, i: nat): (r: GameMap)
    requires i < |w.objects|
    ensures r.level == w.level && |r.objects| == |w.objects|
    ensures r.objects[0] == w.objects[i]
    ensures forall k :: 0 <= k < |w.objects| ==> r.objects[FrontIndex(i, k)] == w.objects[k]
    ensures r.player == FrontIndex(i, w.player)
  {
    GameMap(w.level, SendToBack(w.objects, i), FrontIndex(i, w.player))
  }

  // ---------------------------------------------------------------------------
  // World invariant

  /** The player exists, fights, dies as a player, and carries no item component. */
  ghost predicate PlayerOk(w: GameMap) {
    && w.player < |w.objects|
    && w.objects[w.player].fighter.Some?
    && w.objects[w.player].fighter.value.deathFunction == Some(PlayerDeath)
    && w.objects[w.player].item.None?
  }

  /** A piece with an AI can fight, and so can every AI piece it carries. */
  predicate AiCanFight(p: GamePiece)
    decreases p
  {
    && (p.ai.Some? ==> p.fighter.Some?)
    && forall k :: 0 <= k < |p.inventory| ==> AiCanFight(p.inventory[k])
  }

  /**
   * What every turn relies on: a full-size map with a closed border, a
   * player, every piece on the map standing inside the border, and every
   * piece with an AI, on the map or carried, also able to fight.
   */
  ghost predicate Valid(w: GameMap) {
    && WellFormed(w.level)
    && BorderClosed(w.level)
    && PlayerOk(w)
    && (forall j :: 0 <= j < |w.objects| ==> Interior(w.objects[j].x, w.objects[j].y))
    && (forall j :: 0 <= j < |w.objects| ==> AiCanFight(w.objects[j]))
  }

  /**
   * Putting a piece in place k keeps the world valid when the piece stands
   * inside the border, its AI can fight, and, in the player's place, it
   * still qualifies as the player.
   */
  lemma {:induction false} ReplaceKeepsValid(w: GameMap, k: nat, p: GamePiece)
    requires Valid(w) && k < |w.objects|
    requires Interior(p.x, p.y) && AiCanFight(p)
    requires k == w.player ==> p.fighter.Some? && p.fighter.value.deathFunction == Some(PlayerDeath) && p.item.None?
    ensures Valid(w.(objects := w.objects[k := p]))
  {
    var r := w.(objects := w.objects[k := p]);
    forall j | 0 <= j < |r.objects|
      ensures Interior(r.objects[j].x, r.objects[j].y) && AiCanFight(r.objects[j])
    {
      if j != k { assert r.objects[j] == w.objects[j]; }
    }
  }

  lemma {:induction false} SendToBackWorldValid(w: GameMap, i: nat)
    requires i < |w.objects|
    ensures Valid(w) ==> Valid(SendToBackWorld(w, i))
  {
    var r := SendToBackWorld(w, i);
    if Valid(w) {
      forall j | 0 <= j < |r.objects|
        ensures Interior(r.objects[j].x, r.objects[j].y)
        ensures AiCanFight(r.objects[j])
      {
        var k := if j == 0 then i else if j <= i then j - 1 else j;
        assert FrontIndex(i, k) == j;
      }
    }
  }
}
