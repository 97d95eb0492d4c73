# A verified model of the Martian roguelike's game core

This project models the integer game core of a Python 2 / libtcod roguelike
set on Mars. The core is:

- the map grid and how a surface level is carved: rooms, buildings, tunnels,
  the impassable border and the doors in building walls;
- the shared helpers: the fall-through `switch` matcher, the movement test
  `is_blocked`, and the weighted and uniform random picks;
- game pieces with their fighter, item and equipment components: movement
  that always costs `wait = speed`, stats raised by worn equipment, attack and
  damage, healing, the 26-slot inventory and the one-item-per-slot rule;
- the AI behaviours (basic NPC, confused NPC, explorer) and the death
  callbacks;
- one pass of the main loop: the player's key press with its wait gate and
  move-or-attack, the menus' letter decoding, remembering seen tiles, the
  construction designation dragged out with the mouse, and the sweep that
  gives every NPC its turn.

In the game, the current map, its object list and the player are globals of
`martians.py` (martians.py:757). `classes.py`, `ai.py` and `utility_methods.py`
use some of these names, and a few others, without defining or importing
them; the list under "Left out" says which meaning the model gives each.
Here the map, the list and the player form one immutable world value, `GameMap(level, objects,
player)`, where `player` is the player's position in the object list. Every
operation on the world keeps the invariant `Pieces.Valid`:

- the map has the full 80 × 43 size and a closed border;
- the player exists, can fight and dies by the player's death callback;
- every piece on the map stands inside the border;
- every piece with an AI can fight.

The following are inputs to the model: field of view (a set of visible
cells), the next cell of an A* route, an explorer's freshly planned route,
random rolls and steps, terrain noise, building placement, key presses and
mouse positions.

Modules follow the source files:

- `Tiles`: `mapcreation.py`.
- `Pieces` and `Classes`: `classes.py`. `Pieces` holds the data model and the world invariant; `Classes` holds movement, stats and combat.
- `Inventory`: the item and equipment half of `classes.py`.
- `Utility`: `utility_methods.py`.
- `Deaths` and `Ai`: `ai.py`.
- `Game`: `martians.py`.
- `Findings`: two defects, each modelled as written beside its correction.

`Wrappers` and `Constants` hold `Option`/`Result` and the game's numeric
constants.

## Model

| member | source | states |
|---|---|---|
| Tiles.NewTile | mapcreation.py:44-58 | a fresh tile takes the given blocked flag, sight flag, glyph and outdoors flag; it starts unexplored, undesignated and off the map edge, with no designation type or glyph |
| Tiles.NewTileBlocksSightByDefault | mapcreation.py:44-46 | with the sight flag left at its default, a new tile blocks sight whether or not it is blocked |
| Tiles.NewRect | mapcreation.py:62-66 | the first corner is (x, y) and the second lies w to the right and h further down |
| Tiles.Center | mapcreation.py:68-72 | the centre is the floored midpoint of each axis, and a proper rectangle contains it |
| Tiles.Intersect | mapcreation.py:74-77 | two proper rectangles pass the overlap test exactly when some cell lies in both (bounds are inclusive) |
| Tiles.IntersectSymmetricReflexive | mapcreation.py:74-77 | the overlap test is symmetric, and a proper rectangle overlaps itself |
| Tiles.MiddleOfWall | mapcreation.py:79-86 | the named side fixes one coordinate to that wall; the other is the floored midpoint; for a proper rectangle the point lies on its outline |
| Tiles.Paint | mapcreation.py:94-97 | the nested x/y loop changes exactly the cells of the half-open block, each by the given update, and leaves every other cell and the grid shape as they were |
| Tiles.CreateRoom | mapcreation.py:90-97 | exactly the cells strictly inside the room's outline become passable and see-through; every other cell is unchanged |
| Tiles.CreateBuilding | mapcreation.py:99-132 | outline cells end blocked, opaque and indoors; inner cells end open, see-through and indoors; cells outside the footprint are unchanged |
| Tiles.CreateHTunnel | mapcreation.py:134-138 | exactly the cells of the row between the two ends, ends included and in either order, are dug out |
| Tiles.CreateVTunnel | mapcreation.py:140-144 | exactly the cells of the column between the two ends, ends included and in either order, are dug out |
| Tiles.NewSurfaceGrid | mapcreation.py:172-175 | a full-size grid of open, see-through blank tiles |
| Tiles.AddBorder | mapcreation.py:177-199 | every border cell becomes blocked, opaque and map edge; no inner cell changes |
| Tiles.ApplyTerrain | mapcreation.py:201-209 | exactly the inner cells the noise marks rough become blocked and opaque; the border never changes |
| Tiles.OnlyOpenedTransitive | mapcreation.py:239-262 | two rounds of door punching together only open doors |
| Tiles.PunchDoor | mapcreation.py:239-244 | a door is opened, and given its glyph, exactly when the tile was blocked and not map edge; no other cell changes |
| Tiles.PunchBuildingDoors | mapcreation.py:239-262 | a building's four doors only open blocked, non-edge tiles, and only on that building's outline |
| Tiles.PunchDoors | mapcreation.py:232-262 | punching the doors of every building only ever opens blocked, non-edge tiles |
| Tiles.OnlyOpenedKeepsBorder | mapcreation.py:239-262 | door punching never opens the map border: a closed border stays closed and unchanged |
| Tiles.BuildingKeepsBorder | mapcreation.py:99-132 | a building laid over a closed border keeps it closed, since only its outline can touch the border and the outline is walled |
| Tiles.MakeSurfaceMap | mapcreation.py:146-262 | the surface level has a closed, opaque border, and every inner cell that is neither rough nor under a building is open ground outdoors |
| Pieces.NewFighter | classes.py:140-156 | a new fighter starts at full hit points, with the given stats, death callback and attack speed |
| Pieces.NewGamePiece | classes.py:23-79 | a new piece starts ready to act, unnamed and silent, with an empty inventory by default; equipment always comes with a fresh item component |
| Pieces.SendToBack | classes.py:128-136 | the result is a permutation of the list, with the chosen piece first and every other piece in its original relative order |
| Pieces.FrontIndexKeepsOrder | classes.py:134-135 | pieces other than the one moved keep their relative order |
| Pieces.SendToBackOfFront | classes.py:134-135 | sending the first piece to the back leaves the list unchanged |
| Pieces.SendToBackWorld | classes.py:128-136 | the world's list is reordered as above, and the player index follows the player |
| Pieces.SendToBackWorldValid | classes.py:128-136 | reordering the drawing list keeps the world invariant |
| Utility.NewSwitch | utility_methods.py:19-21 | a new switch holds its value and is not yet falling |
| Utility.Match | utility_methods.py:28-36 | a case is entered iff the switch is already falling, the case has no labels, or the value is among its labels; the switch starts falling iff a labelled case matched |
| Utility.FallingEntersAll | utility_methods.py:30-31 | once the switch is falling, every later case is entered |
| Utility.FallThrough | utility_methods.py:28-36 | from the first case that names the value onwards, every case is entered |
| Utility.DispatchToFirstMatch | utility_methods.py:28-36 | with one label per case, the cases before the first matching label are skipped and that case is entered |
| Utility.IsBlocked | utility_methods.py:40-50 | a cell is blocked iff its tile is blocked or some blocking piece in the list stands on it |
| Utility.IsBlockedMonotone | utility_methods.py:46-50 | adding pieces can only block more cells, and adding non-blocking pieces changes nothing |
| Utility.IsBlockedReorder | utility_methods.py:46-50 | the answer depends only on which pieces are present, not on their order |
| Utility.ColumnCandidates | utility_methods.py:59-61 | the open cells of one column from a row downwards, in increasing row order |
| Utility.CandidatesFrom | utility_methods.py:58-61 | the open cells of the columns from x on, in column-major order |
| Utility.Candidates | utility_methods.py:57-61 | every open cell with both coordinates at least 1, each exactly once, in scanning order |
| Utility.ChooseRandomUnblockedSpot | utility_methods.py:52-63 | a roll within the candidate range gives an open cell with both coordinates at least 1; any other roll, including every roll on a map with no open cell, gives nothing |
| Utility.EverySpotHasOneRoll | utility_methods.py:57-63 | every open cell in the scanned range is the pick of exactly one roll |
| Utility.ChoiceFrom | utility_methods.py:75-82 | the scan from index i returns the first index whose running sum reaches the roll, or nothing when no running sum does |
| Utility.RandomChoiceIndex | utility_methods.py:65-82 | the chosen index is the least one whose prefix sum reaches the roll; there is none iff no prefix sum does |
| Utility.RandomChoiceInRange | utility_methods.py:73-82 | a roll from 1 to the sum of the weights always chooses a valid index |
| Utility.ZeroWeightNeverChosen | utility_methods.py:78-82 | an entry of weight zero is never chosen by a positive roll |
| Utility.RandomChoiceExact | utility_methods.py:73-82 | with non-negative weights, index i is chosen exactly by the rolls above the sum before i and up to the sum through i |
| Utility.RandomChoiceExample | utility_methods.py:69-71 | the documented example: weights [1, 1, 1, 2] send rolls 1, 2, 3 to indices 0, 1, 2 and rolls 4, 5 to index 3 |
| Utility.FromDifficultyLevel | utility_methods.py:91-104 | the value of the last pair whose level the difficulty reaches, or 0 when no pair qualifies |
| Utility.DifficultyMonotone | utility_methods.py:91-104 | on a table ascending in level and value, with values non-negative, a higher difficulty never gives a lower value |
| Deaths.PlayerCorpse | ai.py:111-121 | the player's corpse differs from the player only in its glyph '%' and its name prefixed "remains of "; the resulting state is dead |
| Deaths.NpcCorpse | ai.py:123-131 | an NPC's corpse no longer blocks, fights or acts, shows '%', and has its name prefixed "remains of "; nothing else changes |
| Deaths.NpcDies | ai.py:123-132 | the corpse moves to the front of the drawing list, everything else keeps its order, and the world invariant holds when the dead piece is not the player |
| Deaths.NpcDiesTwice | ai.py:126-132 | killing the same corpse again only lengthens its name |
| Deaths.DeathOf | classes.py:183-186 | no callback leaves the piece as it was; either callback leaves a '%' corpse named "remains of …" on the same cell; the player's corpse still blocks and fights, an NPC's neither blocks, fights nor acts |
| Deaths.AfterDeath | classes.py:183-186 | after an NPC's death the corpse is first in the list, the pieces before it move up one place and those after it keep theirs; after any other death nobody moves |
| Deaths.Die | classes.py:183-186 | the piece's death callback, if it has one, turns it into the matching corpse; the other pieces move only as the callback reorders them, and the invariant is kept |
| Classes.OpenCellIsInterior | mapcreation.py:177-199 | behind a closed border, every open cell lies inside the border |
| Classes.Move | classes.py:81-88 | the piece moves by (dx, dy) iff the destination is not blocked; either way its wait becomes its speed, and no other piece changes |
| Classes.MoveKeepsBlockersApart | classes.py:81-88 | moving never puts a blocking piece on a wall or on another blocking piece |
| Classes.RoundedUnit | classes.py:98-105 | rounding one component of the unit-length delta gives its sign iff that component is nonzero and its square is at least a third of the other's |
| Classes.NormalisedStep | classes.py:98-105 | the rounded, normalised step is at most one cell on each axis and never points against the delta |
| Classes.NormalisedStepNonZero | classes.py:98-105 | a target other than the mover's own cell always gives a real step |
| Classes.NormalisedStepAdjacent | classes.py:98-105 | a neighbouring target is stepped onto directly |
| Classes.MoveTowards | classes.py:90-106 | the mover tries the rounded, normalised step toward the route's next cell through `move`: it takes that step iff the cell it leads to is not blocked, otherwise it stays put; either way its wait becomes its speed |
| Classes.MoveTowardsHeadsForNext | classes.py:90-106 | each coordinate stays or moves one cell towards the route's next cell, and a neighbouring next cell that is not blocked is stepped onto exactly |
| Classes.MoveTowardsAdvances | classes.py:98-106 | a mover whose next cell is not its own cell really moves one step, unless the cell of its rounded step is blocked |
| Classes.EquippedOf | classes.py:292-299 | the equipment of every worn piece in the inventory, and nothing unworn |
| Classes.GetAllEquipped | classes.py:292-303 | the player's worn equipment; any other piece has none |
| Classes.SumEquippedIsInventoryBonus | classes.py:165-166 | summing the bonuses of the worn list equals adding up each inventory piece's contribution |
| Classes.StatValue | classes.py:162-178 | a stat is the base value plus the bonuses of the worn inventory pieces for the player, and just the base for anyone else |
| Classes.Power | classes.py:162-166 | power is the base power plus the worn pieces' power bonuses, counted only for the player |
| Classes.Defense | classes.py:168-172 | defense is the base defense plus the worn pieces' defense bonuses, counted only for the player |
| Classes.MaxHp | classes.py:174-178 | max hp is the base max hp plus the worn pieces' max hp bonuses, counted only for the player |
| Classes.AttackDamage | classes.py:191 | the damage is the attacker's base power plus its worn power bonuses, less the target's base defense plus its worn defense bonuses; it may be zero or negative |
| Classes.Heal | classes.py:202-205 | hit points become the smaller of hp + amount and max hp, nothing else changes, and max hp is unaffected |
| Classes.TakeDamage | classes.py:180-188 | damage that is not positive changes nothing; otherwise hp drops by exactly the damage; the death callback runs iff hp reaches 0 or below; the player gains the experience of a fallen non-player |
| Classes.Attack | classes.py:190-200 | damage is the attacker's power less the target's defense, applied only when positive; the attacker waits its attack speed either way |
| Classes.TakeDamageNeverHeals | classes.py:180-188 | after taking damage, the target has no more hit points than before |
| Classes.AttackNeverHeals | classes.py:190-200 | an attack never heals its target |
| Classes.TakeDamageKeepsPositions | classes.py:180-188 | damage moves nobody, wherever a death has put them in the list |
| Classes.AttackKeepsPositions | classes.py:190-200 | an attack moves nobody |
| Inventory.SlotFrom | classes.py:285-290 | the first piece from position i that is worn in the slot, or none |
| Inventory.GetEquippedInSlot | classes.py:285-290 | the first piece worn in the slot; there is none iff no piece is worn there |
| Inventory.Dequip | classes.py:279-283 | the piece ends unworn; nothing changes if it was not worn; no other piece changes; at most one piece per slot stays true |
| Inventory.Equip | classes.py:268-277 | the piece ends worn; nothing changes if it already was; otherwise only a piece worn in the same slot is taken off, so at most one piece per slot stays true |
| Inventory.ToggleEquip | classes.py:262-266 | the piece's worn flag flips; taking it off changes nothing else, and putting it on can only take off a piece worn in its slot; at most one piece per slot stays true |
| Inventory.EquipChangesStats | classes.py:268-277 | putting a piece on raises each of the player's stats by its bonus, less the bonus of the piece it displaces |
| Inventory.DequipChangesStats | classes.py:279-283 | taking a worn piece off lowers each of the player's stats by its bonus |
| Inventory.UseItem | classes.py:212-225 | equipment is toggled; an item without a use function, or whose use was cancelled, stays; any other item is used up and removed |
| Inventory.AddToInventory | classes.py:232-239 | the new piece goes at the end with the old inventory before it, and equipment is put on iff nothing is worn in its slot |
| Inventory.RemoveObject | classes.py:233 | one piece leaves the map list, the others keep their order, and the player index follows the player |
| Inventory.PickUp | classes.py:227-239 | with 26 or more pieces carried the world is unchanged; otherwise the item joins the creature's inventory and leaves the map, so pickups never make an inventory exceed 26 |
| Inventory.Drop | classes.py:241-251 | the piece leaves the inventory, is taken off first if worn, and is appended to the map list at the creature's position |
| Inventory.DropThenPickUp | classes.py:227-251 | dropping an item and picking it straight back up restores the map list and moves the item to the end of the inventory |
| Ai.ConfusedTurn | ai.py:52-58 | with turns left, the NPC staggers by the random step and counts one turn down; with none left it gets its old AI back and does not move |
| Ai.ConfusedRun | ai.py:48-58 | after k of at most n turns the NPC is still confused with n - k turns left, and turn n + 1 restores its old AI |
| Ai.ConfusionEndsOnCallNPlusOne | ai.py:52-58 | confusion for n turns never counts below zero, and the old AI returns on call n + 1 |
| Ai.AttackOnPlayer | ai.py:40 | an NPC's blow at the player moves no piece in the list, changes no one but the two of them, and leaves the attacker waiting its attack speed with its AI and introduction flag as they were |
| Ai.NpcStrikes | ai.py:39-43 | the adjacent NPC attacks: the player ends as `Classes.Attack` leaves it (power less defense off its hit points, and the death callback on a killing blow), and the NPC ends introduced, waiting its attack speed with its AI kept; the introduction is made on this turn iff it had not been made before |
| Ai.BasicNpcTurn | ai.py:31-43 | unseen, the NPC does nothing; two or more cells away (squared distance at least 4) it steps along the route; adjacent, it attacks a player with hit points left, leaving the player as `Classes.Attack` does; it introduces itself only the first time |
| Ai.IntroducedOnce | ai.py:41-43 | the introduction is never made on two turns in a row, and once made is never made again |
| Ai.NewExplorer | ai.py:71-80 | in the explorer's path map, a cell with both coordinates at least 1 is walkable iff its tile is not blocked and transparent iff its tile does not block sight; the top and left lines stay closed |
| Ai.ExplorerTurn | ai.py:93-109 | with a route left, the explorer takes off its next cell and steps towards it; with none left it plans a new route and does not move |
| Ai.ExplorerWalk | ai.py:93-106 | n turns along a route consume exactly its first n cells |
| Ai.ExplorerStepArrives | ai.py:93-106 | on an open route of single steps, one turn lands the explorer on the route's first cell |
| Ai.ExplorerFollowsRoute | ai.py:93-106 | on an open route of single steps, the explorer stands on the n-th cell after n turns |
| Ai.TakeTurn | martians.py:697 | an NPC's turn keeps the world invariant, and no piece other than the NPC and the player changes |
| Ai.TurnByKind | ai.py:31-109 | a basic NPC, a confused NPC and an explorer each take the turn their own AI class defines |
| Game.FighterFrom | martians.py:351-354 | the first piece from position i that can fight and stands on the cell, or none |
| Game.FirstFighterAt | martians.py:350-354 | the first piece in list order that can fight and stands on the cell; there is none iff no such piece exists |
| Game.PlayerMoveOrAttack | martians.py:336-362 | with nothing to fight on the target cell the player moves; otherwise the target is the first piece in list order that can fight and stands there, and the player attacks it |
| Game.PlayerAttack | martians.py:356-360 | the player's blow is `Classes.Attack` on the target, followed by sending the target to the front of the list when the blow left it a '%' corpse; the player stays put and waits its attack speed |
| Game.AttackingDoesNotMove | martians.py:357-360 | walking into a fighter never moves the player, and leaves it waiting its attack speed |
| Game.SweepStep | martians.py:693-697 | a waiting piece with an AI counts its wait down by exactly one and does not act; a piece without an AI is untouched; only the piece itself and the player can change |
| Game.SweepStepTakesTurn | martians.py:696-697 | a piece with an AI that is not waiting takes its AI's turn |
| Game.SweepTrace | martians.py:692-697 | the worlds between the sweep's slots: slot k turns the world before it into the one after it, and each keeps the invariant, the map, the player index and the list length |
| Game.SweepTouchesEachOnce | martians.py:692-697 | a non-player piece reaches its own slot unchanged, and leaves the sweep as that slot made it |
| Game.SweepSkipsAndCountsDown | martians.py:692-695 | after the whole sweep, a non-player piece without an AI is as it was, and a waiting one has counted down by one and nothing else |
| Game.Sweep | martians.py:692-697 | one pass over the list keeps the invariant, the map, the player index and the list length; pieces without an AI are untouched and waiting ones count down by one |
| Game.NpcTurns | martians.py:691-697 | NPCs act only while the game is being played; pieces without an AI are untouched; waiting ones count down by one |
| Game.Sweeps | martians.py:691-697 | over a run of frames, each with its own field of view and inputs, an NPC with wait w spends its first w frames only counting down, whatever the frames show |
| Game.MenuLine | martians.py:188-193 | option k is shown as its letter in brackets followed by its text |
| Game.MenuChoice | martians.py:166-220 | a menu of more than 26 options is an error; otherwise the key picks the option at its distance from 'a', or nothing when that is not an option |
| Game.MenuLetterPicksLine | martians.py:186-220 | pressing the letter shown on a line picks that line and only that line |
| Game.InventoryText | martians.py:229-234 | an inventory line shows the item's name, with the slot added when it is worn |
| Game.InventoryOptions | martians.py:224-234 | one line per carried piece, in order, or the single placeholder "Inventory is empty" |
| Game.InventoryMenuChoice | martians.py:222-239 | an inventory of more than 26 pieces is an error; an empty inventory picks nothing; otherwise the key decodes as in any menu |
| Game.MarkExplored | martians.py:296-299 | a tile ends explored iff it already was or it is visible now; nothing else changes |
| Game.RevealMap | martians.py:526-530 | the reveal key marks every tile explored and changes nothing else |
| Game.MarkingNeverForgets | martians.py:296-299 | explored tiles stay explored, and tiles out of view are untouched |
| Game.MarkingComposes | martians.py:296-299 | two frames remember exactly what one frame seeing both views would |
| Game.MarkingIdempotent | martians.py:296-299 | seeing the same view twice changes nothing more |
| Game.ClampRelease | martians.py:634-642 | the release coordinate is pulled into [0, size - 1], and a coordinate already in range is kept |
| Game.Designate | martians.py:662-664 | a designated tile is marked for clearing with '+', and nothing else about it changes |
| Game.DesignateArea | martians.py:629-667 | a drag down and to the right marks exactly the block between the press and the clamped release for clearing with '+'; a drag in any other direction changes nothing |
| Game.DesignationKeepsTerrain | martians.py:660-667 | designation never changes what can be walked on, seen through, or remembered, so a closed border stays closed |
| Game.DesignationIdempotent | martians.py:660-667 | designating the same block twice is the same as once |
| Game.Direction | martians.py:444-459 | each arrow key and its keypad twin ask for the same single step; Enter, Escape, keypad 5 and other keys ask for none |
| Game.EveryStepHasTwoKeys | martians.py:444-459 | each of the eight single steps is asked for by exactly two keys, one arrow or navigation key and its keypad twin |
| Game.ItemFrom | martians.py:468-471 | the first piece from position i that is an item on the cell, or none |
| Game.FirstItemAt | martians.py:468-471 | the first item in list order on the cell; there is none iff no such piece exists |
| Game.NamedFrom | martians.py:415-420 | the first piece from position i with the name, or none |
| Game.FirstNamed | martians.py:414-426 | the first piece with the name; there is none iff no piece has it |
| Game.CommandKey | martians.py:463-545 | 'g' picks up the first item under the player; 'i' and 'd' use or drop the item picked from the inventory menu; '>' reports the next map iff the player stands on the stairs; 'm' reveals the map; a code outside 0..255 is an error; other keys leave the world unchanged |
| Game.HandleKeys | martians.py:398-545 | Escape leaves the game; nothing happens outside play; a waiting player counts down by exactly one and does nothing else; a movement key moves or attacks; keypad 5 waits; any other key is a command that never leaves or counts as a move, changes the map only for 'm', changes nothing for '<', '>' or a code outside 0..255, and reports the chr() error for the latter |
| Findings.PickUpAsWritten | classes.py:227-239 | as written, a refused pickup leaves the map list in place but can still change the refused item |
| Findings.RefusedPickUpStillEquips | classes.py:236-239 | with a full inventory and the slot free, the corrected pickup changes nothing, but the code as written marks the refused item on the ground as worn |
| Findings.NameFrom | martians.py:263-268 | the first piece from position i named "player", or the end of the list |
| Findings.PlayerIndexByName | martians.py:262-270 | the lookup by name gives the first piece named "player", or the list's length when there is none |
| Findings.DeadPlayerLostByName | martians.py:262-270 | once a killing blow renames the player, the lookup by name runs off the end of the list |
| Findings.TrackedPlayerSurvivesDeath | ai.py:115-118 | with the player's index tracked, a killing blow leaves the index valid and pointing at the player's corpse |

## Left out

- Field of view, A* route finding and random numbers are libtcod calls. Visibility is a set of cells. The route's next cell, an explorer's new route, the confused stagger, the dice and the spot index are all parameters.
- Terrain noise (mapcreation.py:202-209) is the `rough` parameter of `Tiles.ApplyTerrain`. Random building sizes and positions (mapcreation.py:214-222) are the `buildings` parameter of `Tiles.MakeSurfaceMap`.
- `Tiles.MakeSurfaceMap` leaves out creating the player, the stairs in the last building, `place_junk` and the player's start spot (mapcreation.py:155-166, 224-230, 270-273). The start spot would be one call of `Utility.ChooseRandomUnblockedSpot`.
- `GameMap`'s id number, fov map and location (mapcreation.py:24-36) are not modelled. Neither are tile and piece colours; they are only drawn.
- Floating-point distance and normalisation are replaced by exact integer arithmetic:
  - `distance_to` becomes a squared distance, so `>= 2` is squared distance `>= 4`.
  - `int(round(d / sqrt(d*d + e*e)))` becomes `Classes.RoundedUnit`, which never meets a rounding tie.
- A zero route delta divides by zero in the source. The model takes a zero step instead.
- `random_choice` depends on Python 2 dictionary order and is not modelled.
- Drawing is not modelled: `render_all` apart from its explored marking, `draw`, `clear`, `render_bar`, `menu` display and key waiting, `msgbox`, `main_menu`, `target_tile`, `draw_things`, `get_names_under_mouse`, and the construction area's preview print.
- The message log is not modelled. `message` is not part of this model, so neither is the NPC introduction text, which would also fail on a piece with no name.
- Not modelled:
  - save and load;
  - `new_game`;
  - the event polling and map switching of `play_game`;
  - `next_level`;
  - `build_menu` (the 'q' key) and `land_astronauts` (the 'L' key), which both report `NotModelled`;
  - the display-only keys 'c', 'h' and 'p', and the Alt+Enter fullscreen toggle.
- Item use functions (the spells) are not modelled. `Inventory.UseItem` takes only whether the use was cancelled.
- A number of call sites do not match the functions they call. The model gives each the intended meaning:
  - `move` is called without the map (ai.py:54).
  - `get_equipped_in_slot` is called without the creature (classes.py:238, 271); the holder's inventory is used.
  - `send_to_back()` is called without the list (ai.py:132).
  - `move_towards` uses an undefined `initialize_pathmap` and `math` (classes.py:95-100).
  - `chosen_item.use()` is called without the creature (martians.py:477).
  - The death callback is given one argument where `player_death` takes two (classes.py:186).
  - `take_turn` is given the map where a field of view is meant (martians.py:697).
  - `pick_up` and `drop` use the global player and object list (classes.py:233, 247-250); the model uses the creature and the map's list. `Inventory.Drop` puts the piece at the dropping creature's position.
  - `take_damage` reads the global `player` to decide who gains the experience (classes.py:187-188); the model uses the world's tracked player index.
  - `attack` calls `message`, which `classes.py` never imports or defines (classes.py:194, 197); the message log is not modelled.
  - `BasicNPC.take_turn` reads the global `player` (ai.py:35-38); the model uses the world's tracked player.
  - `from_difficulty_level` reads a global `difficulty_level` that `utility_methods.py` never defines (utility_methods.py:101); the model takes the difficulty as a parameter.
  - `martians.py` imports `target_NPC`, `find_player_in_list`, `message`, `move`, `move_towards` and `send_to_back` from `utility_methods.py` (martians.py:13-14), which defines only `target_NPC` of these. The model uses the methods of the same names in `classes.py` (classes.py:81-133), and finds the player by the tracked index.
- `BasicExplorer.take_turn` reads its path before any path exists. A new explorer starts with an empty route, so its first turn plans one.
- The '>' key reads `map_number` before the local assignment on line 490 binds it, which in Python raises UnboundLocalError. `Game.CommandKey` reports the evidently intended `NextMap` and leaves the world unchanged; going down a level is outside the model.
- The '<' key reads an `upstairs` that is never defined whenever the map has stairs. `Game.CommandKey` reports that error. Without stairs it reports `DidntTakeTurn`, as the source does.
- The player's death state is dropped. `player_death` sets only a local `game_state` and its return value is discarded, so the main loop's state never becomes dead. `Game.NpcTurns` and `Game.HandleKeys` take the state as a parameter.
- The source finds the player by name where the model uses the tracked index: in `player_move_or_attack` (`find_player_in_list` is not part of this model), in `render_all` and in `handle_keys`.
- The source compares `creature.name is 'player'` and `target.char is '%'` by identity. The model uses equality, which is what these comparisons give for interned strings.
- The designation's `IndexError` guard never fires: after clamping, every cell of the block is on the map.
- The mouse press position is a natural number.
- `unused.py` and `firstrl.py` are not modelled. `constants.py` contributes only the values in `Constants`.
- Game.HandleKeys: for a command key it states the possible actions and which keys leave the world or the map alone. What 'g', 'i' and 'd' do is the contract of `Game.CommandKey`, which it calls; a method's result cannot be named in another method's contract.
- Ai.TakeTurn: it states only the invariant and which pieces can change. What each kind of AI does is the contract of `Ai.BasicNpcTurn`, `Ai.ConfusedTurn` and `Ai.ExplorerTurn`, and `Ai.TurnByKind` says which applies. What a basic NPC's blow does to the player is stated by `Ai.NpcStrikes` and `Ai.BasicNpcTurn` in terms of `Classes.Attack`.
- Tiles.CreateRoom, Tiles.CreateHTunnel, Tiles.CreateVTunnel: the global `map` is the parameter `m`, and the requires keep every carved cell on the map. The source indexes the map unguarded, so a negative coordinate would carve a cell on the far side and one past the edge would raise IndexError; those inputs are excluded. Nothing in the modelled game calls these three.
- Tiles.PunchBuildingDoors: it states that only blocked, non-edge tiles on the building's outline are opened. Which four cells those are is stated by `Tiles.MiddleOfWall` and `Tiles.PunchDoor`.

## Findings

| source | as written | input that shows it | evidently intended | confidence | as-written member | corrected member |
|---|---|---|---|---|---|---|
| classes.py:236-239 | the automatic equip after a pickup sits after the capacity check, not inside its successful branch; this shows only once the call sites listed under "Left out" are fixed: as written, the refused branch first raises NameError on `message` (classes.py:230), which `classes.py` never defines or imports, and after that the one-argument `get_equipped_in_slot` call on line 238 raises TypeError | a creature carrying 26 pieces, none worn in slot "hand", stands on unworn "hand" equipment and presses 'g' | equip only a piece that was actually picked up | not executed | Findings.RefusedPickUpStillEquips | Inventory.PickUp |
| martians.py:262-270 | the player is found as the first piece named "player", but `player_death` renames the player "remains of player" (ai.py:118); this shows only once the call sites listed under "Left out" are fixed: as written, `attack` first raises NameError on `message` (classes.py:194), and the death callback is then given one argument where `player_death` takes two (classes.py:186, ai.py:111), raising TypeError before the rename | an NPC deals the player a killing blow; on the next frame the search runs to the end of the list and the lookup after it is out of range | keep finding the player after death, so the game-over screen can be drawn | not executed | Findings.DeadPlayerLostByName | Findings.TrackedPlayerSurvivesDeath |
