/**
 * What a game piece does: moving one step, the stats its equipment adds to,
 * and combat between fighters.
 */
module Classes {
  import opened Wrappers
  import opened Constants
  import opened Tiles
  import opened Pieces
  import opened Utility
  import opened Deaths

  // ---------------------------------------------------------------------------
  // Movement

  /** A step of at most one cell along each axis. */
  predicate UnitStep(dx: int, dy: int) {
    -1 <= dx <= 1 && -1 <= dy <= 1
  }

  /** With the border closed, any open cell lies inside it. */
  lemma {:induction false} OpenCellIsInterior(m: Grid, x: int, y: int)
    requires WellFormed(m) && BorderClosed(m) && InBounds(x, y) && !m[x][y].blocked
    ensures Interior(x, y)
  {
    assert !OnBorder(x, y);
  }

  /**
   * Piece i tries to step by (dx, dy): it moves only if the destination is
   * not blocked, and either way it must then wait its full speed.
   */
  function Move(w: GameMap, i: nat, dx: int, dy: int): (r: GameMap)
    requires Valid(w) && i < |w.objects| && UnitStep(dx, dy)
    ensures Valid(r) && r.level == w.level && r.player == w.player && |r.objects| == |w.objects|
    ensures forall j :: 0 <= j < |w.objects| && j != i ==> r.objects[j] == w.objects[j]
    ensures r.objects[i].wait == w.objects[i].speed
    ensures var p := w.objects[i];
            IsBlocked(w.level, w.objects, p.x + dx, p.y + dy) ==> r.objects[i] == p.(wait := p.speed)
    ensures var p := w.objects[i];
            !IsBlocked(w.level, w.objects, p.x + dx, p.y + dy) ==>
              r.objects[i] == p.(x := p.x + dx, y := p.y + dy, wait := p.speed)
  {
    var p := w.objects[i];
    var nx, ny := p.x + dx, p.y + dy;
    if IsBlocked(w.level, w.objects, nx, ny) then
      w.(objects := w.objects[i := p.(wait := p.speed)])
    else
      OpenCellIsInterior(w.level, nx, ny);
      w.(objects := w.objects[i := p.(x := nx, y := ny, wait := p.speed)])
  }

  /** No two blocking pieces share a cell, and none stands on a blocked tile. */
  ghost predicate BlockersApart(w: GameMap)
    requires WellFormed(w.level)
  {
    && (forall j, k ::
          (0 <= j < |w.objects| && 0 <= k < |w.objects| && j != k
           && w.objects[j].blocks && w.objects[k].blocks) ==>
          (w.objects[j].x, w.objects[j].y) != (w.objects[k].x, w.objects[k].y))
    && (forall j :: 0 <= j < |w.objects| && w.objects[j].blocks && InBounds(w.objects[j].x, w.objects[j].y) ==>
          !w.level[w.objects[j].x][w.objects[j].y].blocked)
  }

  /** Moving can never walk a blocking piece onto a wall or onto another blocker. */
  lemma {:induction false} MoveKeepsBlockersApart(w: GameMap, i: nat, dx: int, dy: int)
    requires Valid(w) && i < |w.objects| && UnitStep(dx, dy) && BlockersApart(w)
    ensures BlockersApart(Move(w, i, dx, dy))
  {
    var r := Move(w, i, dx, dy);
    var p := w.objects[i];
    if !IsBlocked(w.level, w.objects, p.x + dx, p.y + dy) {
      forall k | 0 <= k < |w.objects| && k != i && w.objects[k].blocks
        ensures (w.objects[k].x, w.objects[k].y) != (p.x + dx, p.y + dy)
      {
        assert !BlocksAt(w.objects[k], p.x + dx, p.y + dy);
      }
    }
  }

  /** The sign of d. */
  function Sign(d: int): int {
    if d > 0 then 1 else if d < 0 then -1 else 0
  }

  /**
   * One component of the delta (d, e) scaled to length 1 and rounded to the
   * nearest integer. |d| / sqrt(d*d + e*e) reaches one half exactly when
   * 3*d*d >= e*e; for integers not both zero it never equals one half, so
   * the rounding direction of ties does not arise.
   */
  function RoundedUnit(d: int, e: int): (c: int)
    ensures c == 0 || c == Sign(d)
    ensures c != 0 <==> d != 0 && 3 * d * d >= e * e
  {
    if 3 * d * d >= e * e then Sign(d) else 0
  }

  /** The grid step toward a cell at offset (dx, dy). */
  function NormalisedStep(dx: int, dy: int): (s: (int, int))
    ensures UnitStep(s.0, s.1)
    ensures (s.0 == 0 || s.0 == Sign(dx)) && (s.1 == 0 || s.1 == Sign(dy))
  {
    (RoundedUnit(dx, dy), RoundedUnit(dy, dx))
  }

  /** A target that is not the mover's own cell always gives a real step. */
  lemma {:induction false} NormalisedStepNonZero(dx: int, dy: int)
    requires (dx, dy) != (0, 0)
    ensures NormalisedStep(dx, dy) != (0, 0)
  {
    var a, b := dx * dx, dy * dy;
    assert a >= 0 && b >= 0;
    assert 3 * a < b && 3 * b < a ==> false;
    if dx == 0 {
      assert b > 0;
    }
    if dy == 0 {
      assert a > 0;
    }
  }

  /** A neighbouring target is stepped onto directly. */
  lemma {:induction false} NormalisedStepAdjacent(dx: int, dy: int)
    requires UnitStep(dx, dy)
    ensures NormalisedStep(dx, dy) == (dx, dy)
  {
  }

  /**
   * Step toward `next`, the first cell of a route to the target. Route
   * finding is outside the model, so the caller supplies that cell.
   */
  function MoveTowards(w: GameMap, i: nat, next: Cell): (r: GameMap)
    requires Valid(w) && i < |w.objects|
    ensures Valid(r) && r.level == w.level && r.player == w.player && |r.objects| == |w.objects|
    ensures forall j :: 0 <= j < |w.objects| && j != i ==> r.objects[j] == w.objects[j]
    ensures r.objects[i].wait == w.objects[i].speed
    ensures var p := w.objects[i]; var s := NormalisedStep(next.0 - p.x, next.1 - p.y);
            !IsBlocked(w.level, w.objects, p.x + s.0, p.y + s.1) ==>
              r.objects[i] == p.(x := p.x + s.0, y := p.y + s.1, wait := p.speed)
    ensures var p := w.objects[i]; var s := NormalisedStep(next.0 - p.x, next.1 - p.y);
            IsBlocked(w.level, w.objects, p.x + s.0, p.y + s.1) ==> r.objects[i] == p.(wait := p.speed)
  {
    var p := w.objects[i];
    var s := NormalisedStep(next.0 - p.x, next.1 - p.y);
    Move(w, i, s.0, s.1)
  }

  /**
   * Each coordinate stays or moves one cell toward the route's next cell,
   * and a neighbouring next cell that is free is stepped onto exactly.
   */
  lemma {:induction false} MoveTowardsHeadsForNext(w: GameMap, i: nat, next: Cell)
    requires Valid(w) && i < |w.objects|
    ensures var p := w.objects[i]; var q := MoveTowards(w, i, next).objects[i];
            && (q.x == p.x || q.x == p.x + Sign(next.0 - p.x))
            && (q.y == p.y || q.y == p.y + Sign(next.1 - p.y))
    ensures var p := w.objects[i];
            UnitStep(next.0 - p.x, next.1 - p.y) && !IsBlocked(w.level, w.objects, next.0, next.1) ==>
              MoveTowards(w, i, next).objects[i] == p.(x := next.0, y := next.1, wait := p.speed)
  {
    var p := w.objects[i];
    var s := NormalisedStep(next.0 - p.x, next.1 - p.y);
    if UnitStep(next.0 - p.x, next.1 - p.y) {
      NormalisedStepAdjacent(next.0 - p.x, next.1 - p.y);
    }
  }

  /**
   * A mover whose route goes anywhere but its own cell really steps, unless
   * the cell of its rounded step is blocked.
   */
  lemma {:induction false} MoveTowardsAdvances(w: GameMap, i: nat, next: Cell)
    requires Valid(w) && i < |w.objects|
    requires var p := w.objects[i]; next != (p.x, p.y)
    requires var p := w.objects[i]; var s := NormalisedStep(next.0 - p.x, next.1 - p.y);
             !IsBlocked(w.level, w.objects, p.x + s.0, p.y + s.1)
    ensures var p := w.objects[i]; var q := MoveTowards(w, i, next).objects[i];
            (q.x, q.y) != (p.x, p.y) && UnitStep(q.x - p.x, q.y - p.y)
  {
    var p := w.objects[i];
    NormalisedStepNonZero(next.0 - p.x, next.1 - p.y);
  }

  // ---------------------------------------------------------------------------
  // Stats

  datatype Stat = PowerStat | DefenseStat | MaxHpStat

  function Bonus(e: Equipment, s: Stat): int {
    match s
    case PowerStat => e.powerBonus
    case DefenseStat => e.defenseBonus
    case MaxHpStat => e.maxHpBonus
  }

  function Base(f: Fighter, s: Stat): int {
    match s
    case PowerStat => f.basePower
    case DefenseStat => f.baseDefense
    case MaxHpStat => f.baseMaxHp
  }

  predicate IsEquipped(p: GamePiece) {
    p.equipment.Some? && p.equipment.value.isEquipped
  }

  /** The equipment components of the equipped pieces, in inventory order. */
  function EquippedOf(inventory: seq<GamePiece>): (r: seq<Equipment>)
    ensures |r| <= |inventory|
    ensures forall e :: e in r ==> e.isEquipped
    ensures forall k :: 0 <= k < |inventory| && IsEquipped(inventory[k]) ==> inventory[k].equipment.value in r
  {
    if |inventory| == 0 then []
    else
      var rest := EquippedOf(inventory[1..]);
      assert forall k :: 1 <= k < |inventory| ==> inventory[k] == inventory[1..][k - 1];
      (if IsEquipped(inventory[0]) then [inventory[0].equipment.value] else []) + rest
  }

  /** Only the player's equipment counts; any other piece has none. */
  function GetAllEquipped(creature: GamePiece): (r: seq<Equipment>)
    ensures creature.name != "player" ==> r == []
    ensures forall e :: e in r ==> e.isEquipped
    ensures creature.name == "player" ==>
              forall k :: 0 <= k < |creature.inventory| && IsEquipped(creature.inventory[k]) ==>
                creature.inventory[k].equipment.value in r
  {
    if creature.name == "player" then EquippedOf(creature.inventory) else []
  }

  function SumBonus(es: seq<Equipment>, s: Stat): int {
    if |es| == 0 then 0 else Bonus(es[0], s) + SumBonus(es[1..], s)
  }

  /** What one inventory piece adds to a stat. */
  function Contribution(p: GamePiece, s: Stat): int {
    if IsEquipped(p) then Bonus(p.equipment.value, s) else 0
  }

  /** The bonus of a whole inventory, piece by piece. */
  function InventoryBonus(inventory: seq<GamePiece>, s: Stat): int {
    if |inventory| == 0 then 0 else Contribution(inventory[0], s) + InventoryBonus(inventory[1..], s)
  }

  /**
   * A stat as the fighter reports it: its base value plus the bonuses of
   * every worn piece in the inventory, for the player; any other piece has
   * just its base value.
   */
  function StatValue(p: GamePiece, s: Stat): (r: int)
    requires p.fighter.Some?
    ensures p.name == "player" ==> r == Base(p.fighter.value, s) + InventoryBonus(p.inventory, s)
    ensures p.name != "player" ==> r == Base(p.fighter.value, s)
  {
    SumEquippedIsInventoryBonus(p.inventory, s);
    Base(p.fighter.value, s) + SumBonus(GetAllEquipped(p), s)
  }

  /** What the worn pieces add to a stat: the inventory bonus for the player, nothing for anyone else. */
  function WornBonus(p: GamePiece, s: Stat): int {
    if p.name == "player" then InventoryBonus(p.inventory, s) else 0
  }

  function Power(p: GamePiece): (r: int)
    requires p.fighter.Some?
    ensures r == p.fighter.value.basePower + WornBonus(p, PowerStat)
  {
    StatValue(p, PowerStat)
  }

  function Defense(p: GamePiece): (r: int)
    requires p.fighter.Some?
    ensures r == p.fighter.value.baseDefense + WornBonus(p, DefenseStat)
  {
    StatValue(p, DefenseStat)
  }

  function MaxHp(p: GamePiece): (r: int)
    requires p.fighter.Some?
    ensures r == p.fighter.value.baseMaxHp + WornBonus(p, MaxHpStat)
  {
    StatValue(p, MaxHpStat)
  }

  lemma {:induction false} SumEquippedIsInventoryBonus(inventory: seq<GamePiece>, s: Stat)
    ensures SumBonus(EquippedOf(inventory), s) == InventoryBonus(inventory, s)
    decreases |inventory|
  {
    if |inventory| > 0 {
      SumEquippedIsInventoryBonus(inventory[1..], s);
      var head := if IsEquipped(inventory[0]) then [inventory[0].equipment.value] else [];
      var rest := EquippedOf(inventory[1..]);
      if IsEquipped(inventory[0]) {
        assert (head + rest)[1..] == rest;
      } else {
        assert head + rest == rest;
      }
    }
  }

  /** Replacing one inventory piece changes the bonus by the difference of the two. */
  lemma {:induction false} InventoryBonusUpdate(inventory: seq<GamePiece>, k: nat, x: GamePiece, s: Stat)
    requires k < |inventory|
    ensures InventoryBonus(inventory[k := x], s) ==
              InventoryBonus(inventory, s) - Contribution(inventory[k], s) + Contribution(x, s)
    decreases k
  {
    if k > 0 {
      InventoryBonusUpdate(inventory[1..], k - 1, x, s);
      assert inventory[k := x][1..] == inventory[1..][k - 1 := x];
    }
  }

  lemma {:induction false} InventoryBonusAppend(inventory: seq<GamePiece>, x: GamePiece, s: Stat)
    ensures InventoryBonus(inventory + [x], s) == InventoryBonus(inventory, s) + Contribution(x, s)
    decreases |inventory|
  {
    if |inventory| == 0 {
      assert [x][1..] == [];
    } else {
      InventoryBonusAppend(inventory[1..], x, s);
      assert (inventory + [x])[1..] == inventory[1..] + [x];
    }
  }

  lemma {:induction false} InventoryBonusRemove(inventory: seq<GamePiece>, k: nat, s: Stat)
    requires k < |inventory|
    ensures InventoryBonus(inventory[..k] + inventory[k + 1..], s) == InventoryBonus(inventory, s) - Contribution(inventory[k], s)
    decreases k
  {
    if k == 0 {
      assert inventory[..0] + inventory[1..] == inventory[1..];
    } else {
      InventoryBonusRemove(inventory[1..], k - 1, s);
      assert (inventory[..k] + inventory[k + 1..])[1..] == inventory[1..][..k - 1] + inventory[1..][k..];
    }
  }

  // ---------------------------------------------------------------------------
  // Combat

  /** Heal by `amount`, never past the maximum. */
  function Heal(p: GamePiece, amount: int): (r: GamePiece)
    requires p.fighter.Some?
    ensures r.fighter.Some?
    ensures r == p.(fighter := Some(p.fighter.value.(hp := r.fighter.value.hp)))
    ensures p.fighter.value.hp + amount <= MaxHp(p) ==> r.fighter.value.hp == p.fighter.value.hp + amount
    ensures p.fighter.value.hp + amount > MaxHp(p) ==> r.fighter.value.hp == MaxHp(p)
    ensures MaxHp(r) == MaxHp(p)
  {
    var f := p.fighter.value;
    var healed := p.(fighter := Some(f.(hp := f.hp + amount)));
    assert GetAllEquipped(healed) == GetAllEquipped(p);
    if healed.fighter.value.hp > MaxHp(healed) then p.(fighter := Some(f.(hp := MaxHp(healed)))) else healed
  }

  function Wounded(p: GamePiece, damage: int): (r: GamePiece)
    requires p.fighter.Some?
  {
    p.(fighter := Some(p.fighter.value.(hp := p.fighter.value.hp - damage)))
  }

  function Rewarded(p: GamePiece, xp: int): (r: GamePiece)
    requires p.fighter.Some?
  {
    p.(fighter := Some(p.fighter.value.(xp := p.fighter.value.xp + xp)))
  }

  /** Damage that brings the hit points to zero or below. */
  predicate Kills(p: GamePiece, damage: int)
    requires p.fighter.Some?
  {
    damage > 0 && p.fighter.value.hp - damage <= 0
  }

  /** Where piece k ends up after piece t takes `damage`. */
  function HitIndex(w: GameMap, t: nat, damage: int, k: nat): nat
    requires t < |w.objects| && w.objects[t].fighter.Some?
  {
    if Kills(w.objects[t], damage) then AfterDeath(w.objects[t].fighter.value.deathFunction, t, k) else k
  }

  /**
   * Piece t takes `damage`. Damage that is not positive does nothing;
   * otherwise the hit points drop by exactly that much, and when they reach
   * zero the piece's death callback runs and, unless it is the player who
   * died, the player gains the fallen fighter's experience.
   */
  function TakeDamage(w: GameMap, t: nat, damage: int): (r: GameMap)
    requires Valid(w) && t < |w.objects| && w.objects[t].fighter.Some?
    ensures Valid(r) && r.level == w.level && |r.objects| == |w.objects|
    ensures damage <= 0 ==> r == w
    ensures r.player == HitIndex(w, t, damage, w.player)
    ensures forall k :: 0 <= k < |w.objects| && k != t && k != w.player ==>
              r.objects[HitIndex(w, t, damage, k)] == w.objects[k]
    ensures damage > 0 && !Kills(w.objects[t], damage) ==> r.objects[t] == Wounded(w.objects[t], damage)
    ensures Kills(w.objects[t], damage) ==>
              r.objects[HitIndex(w, t, damage, t)] ==
                DeathOf(w.objects[t].fighter.value.deathFunction, Wounded(w.objects[t], damage))
    ensures t != w.player ==>
              r.objects[r.player] ==
                Rewarded(w.objects[w.player], if Kills(w.objects[t], damage) then w.objects[t].fighter.value.xp else 0)
  {
    var p := w.objects[t];
    var f := p.fighter.value;
    if damage <= 0 then w
    else
      var w1 := w.(objects := w.objects[t := Wounded(p, damage)]);
      ReplaceKeepsValid(w, t, Wounded(p, damage));
      if f.hp - damage > 0 then
        assert Rewarded(w.objects[w.player], 0) == w.objects[w.player];
        w1
      else
        var w2 := Die(w1, t, f.deathFunction);
        if t == w.player then w2
        else
          var r := w2.(objects := w2.objects[w2.player := Rewarded(w2.objects[w2.player], f.xp)]);
          ReplaceKeepsValid(w2, w2.player, Rewarded(w2.objects[w2.player], f.xp));
          r
  }

  /**
   * The damage a's blow does to t: the attacker's power, worn bonuses
   * included, less the target's defense, worn bonuses included. It may be
   * zero or negative.
   */
  function AttackDamage(w: GameMap, a: nat, t: nat): (d: int)
    requires a < |w.objects| && t < |w.objects|
    requires w.objects[a].fighter.Some? && w.objects[t].fighter.Some?
    ensures var p, q := w.objects[a], w.objects[t];
            d == (p.fighter.value.basePower + WornBonus(p, PowerStat))
                 - (q.fighter.value.baseDefense + WornBonus(q, DefenseStat))
  {
    Power(w.objects[a]) - Defense(w.objects[t])
  }

  /**
   * Attacker a strikes target t. The target takes the damage only when it
   * is positive, and the attacker then waits its attack speed either way.
   */
  function Attack(w: GameMap, a: nat, t: nat): (r: GameMap)
    requires Valid(w) && a < |w.objects| && t < |w.objects|
    requires w.objects[a].fighter.Some? && w.objects[t].fighter.Some?
    ensures Valid(r) && r.level == w.level && |r.objects| == |w.objects|
    ensures var d := AttackDamage(w, a, t); var a' := HitIndex(w, t, d, a);
            r.objects[a'].wait == w.objects[a].fighter.value.attackSpeed
    ensures var d := AttackDamage(w, a, t);
            d <= 0 ==> r == w.(objects := w.objects[a := w.objects[a].(wait := w.objects[a].fighter.value.attackSpeed)])
    ensures var d := AttackDamage(w, a, t); var a' := HitIndex(w, t, d, a); var h := TakeDamage(w, t, d);
            d > 0 ==> r == h.(objects := h.objects[a' := h.objects[a'].(wait := w.objects[a].fighter.value.attackSpeed)])
  {
    var d := AttackDamage(w, a, t);
    var speed := w.objects[a].fighter.value.attackSpeed;
    var h := if d > 0 then TakeDamage(w, t, d) else w;
    var a' := HitIndex(w, t, d, a);
    assert a' < |h.objects|;
    h.(objects := h.objects[a' := h.objects[a'].(wait := speed)])
  }

  /** Whatever the damage, the target ends with no more hit points than it had. */
  lemma {:induction false} TakeDamageNeverHeals(w: GameMap, t: nat, damage: int)
    requires Valid(w) && t < |w.objects| && w.objects[t].fighter.Some?
    ensures var r := TakeDamage(w, t, damage); var q := r.objects[HitIndex(w, t, damage, t)];
            q.fighter.Some? ==> q.fighter.value.hp <= w.objects[t].fighter.value.hp
  {
    if t != w.player {
      assert HitIndex(w, t, damage, t) != HitIndex(w, t, damage, w.player);
    }
  }

  /** An attack never heals its target, whether or not it does damage. */
  lemma {:induction false} AttackNeverHeals(w: GameMap, a: nat, t: nat)
    requires Valid(w) && a < |w.objects| && t < |w.objects|
    requires w.objects[a].fighter.Some? && w.objects[t].fighter.Some?
    ensures var r := Attack(w, a, t); var q := r.objects[HitIndex(w, t, AttackDamage(w, a, t), t)];
            q.fighter.Some? ==> q.fighter.value.hp <= w.objects[t].fighter.value.hp
  {
    var d := AttackDamage(w, a, t);
    if d > 0 {
      TakeDamageNeverHeals(w, t, d);
    }
  }

  /** Damage moves nobody: every piece keeps its position, wherever it now is in the list. */
  lemma {:induction false} TakeDamageKeepsPositions(w: GameMap, t: nat, damage: int)
    requires Valid(w) && t < |w.objects| && w.objects[t].fighter.Some?
    ensures var r := TakeDamage(w, t, damage);
            forall k :: 0 <= k < |w.objects| ==>
              r.objects[HitIndex(w, t, damage, k)].x == w.objects[k].x &&
              r.objects[HitIndex(w, t, damage, k)].y == w.objects[k].y
  {
    var r := TakeDamage(w, t, damage);
    if t != w.player {
      assert HitIndex(w, t, damage, t) != HitIndex(w, t, damage, w.player);
    }
  }

  lemma {:induction false} AttackKeepsPositions(w: GameMap, a: nat, t: nat)
    requires Valid(w) && a < |w.objects| && t < |w.objects|
    requires w.objects[a].fighter.Some? && w.objects[t].fighter.Some?
    ensures var r := Attack(w, a, t); var d := AttackDamage(w, a, t);
            forall k :: 0 <= k < |w.objects| ==>
              r.objects[HitIndex(w, t, d, k)].x == w.objects[k].x &&
              r.objects[HitIndex(w, t, d, k)].y == w.objects[k].y
  {
    var d := AttackDamage(w, a, t);
    if d > 0 {
      TakeDamageKeepsPositions(w, t, d);
    }
  }
}
