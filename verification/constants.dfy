/** The game's numeric parameters, as fixed by the game's constants and class defaults. */
module Constants {

  /** Size of the playing area in cells. */
  const MapWidth: int := 80
  const MapHeight: int := 43

  /** Turns to wait after a move (player / everybody else) and after an attack. */
  const PlayerSpeed: int := 1
  const DefaultSpeed: int := 8
  const DefaultAttackSpeed: int := 20

  /** How long a confusion spell lasts. */
  const ConfuseNumTurns: int := 10

  /** One inventory slot and one menu option per letter 'a'..'z'. */
  const InventoryCapacity: int := 26
  const MenuMaxOptions: int := 26
}
