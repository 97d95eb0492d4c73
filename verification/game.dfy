/**
 * One pass of the main loop: the player's key press, the construction
 * designation dragged out with the mouse, the NPCs' turns, and the
 * bookkeeping around them (menus, remembering seen tiles).
 *
 * Key presses, mouse positions, the field of view and every random or
 * pathfinding answer arrive as parameters.
 */
module Game {
  import opened Wrappers
  import opened Constants
  import opened Tiles
  import opened Pieces
  import opened Utility
  import opened Deaths
  import opened Classes
  import opened Inventory
  import opened Ai

  // ---------------------------------------------------------------------------
  // Move or attack

  function FighterFrom(objects: seq<GamePiece>, x: int, y: int, i: nat): (r: Option<nat>)
    requires i <= |objects|
    ensures r.Some? ==> i <= r.value < |objects| && objects[r.value].fighter.Some? &&
                        objects[r.value].x == x && objects[r.value].y == y
    ensures r.Some? ==> forall k :: i <= k < r.value ==> !(objects[k].fighter.Some? && objects[k].x == x && objects[k].y == y)
    ensures r.None? <==> forall k :: i <= k < |objects| ==> !(objects[k].fighter.Some? && objects[k].x == x && objects[k].y == y)
    decreases |objects| - i
  {
    if i == |objects| then None
    else if objects[i].fighter.Some? && objects[i].x == x && objects[i].y == y then Some(i)
    else FighterFrom(objects, x, y, i + 1)
  }

  /** The first piece in list order that can fight and stands on (x, y). */
  function FirstFighterAt(objects: seq<GamePiece>, x: int, y: int): (r: Option<nat>)
    ensures r.Some? ==> r.value < |objects| && objects[r.value].fighter.Some? &&
                        objects[r.value].x == x && objects[r.value].y == y
    ensures r.Some? ==> forall k :: 0 <= k < r.value ==> !(objects[k].fighter.Some? && objects[k].x == x && objects[k].y == y)
    ensures r.None? <==> forall k :: 0 <= k < |objects| ==> !(objects[k].fighter.Some? && objects[k].x == x && objects[k].y == y)
  {
    FighterFrom(objects, x, y, 0)
  }

  /**
   * The player steps by (dx, dy), or attacks instead when something that
   * can fight stands there: the first such piece is the target, a target
   * left as a corpse goes to the front of the drawing order, and the player
   * stays put.
   */
  function PlayerMoveOrAttack(w: GameMap, dx: int, dy: int): (r: GameMap)
    requires Valid(w) && UnitStep(dx, dy)
    ensures Valid(r) && r.level == w.level && |r.objects| == |w.objects|
    ensures var p := w.objects[w.player];
            match FirstFighterAt(w.objects, p.x + dx, p.y + dy)
            case None => r == Move(w, w.player, dx, dy)
            case Some(t) => r == PlayerAttack(w, t)
  {
    var p := w.objects[w.player];
    match FirstFighterAt(w.objects, p.x + dx, p.y + dy)
    case None => Move(w, w.player, dx, dy)
    case Some(t) => PlayerAttack(w, t)
  }

  /**
   * The player strikes piece t; a target the blow leaves as a corpse goes
   * to the front of the drawing order. The player keeps its cell either way.
   */
  function PlayerAttack(w: GameMap, t: nat): (r: GameMap)
    requires Valid(w) && t < |w.objects| && w.objects[t].fighter.Some?
    ensures Valid(r) && r.level == w.level && |r.objects| == |w.objects|
    ensures var p := w.objects[w.player];
            && r.objects[r.player].x == p.x && r.objects[r.player].y == p.y
            && r.objects[r.player].wait == p.fighter.value.attackSpeed
    ensures var a := Attack(w, w.player, t);
            var t' := HitIndex(w, t, AttackDamage(w, w.player, t), t);
            t' < |a.objects| &&
            r == (if a.objects[t'].glyph == CorpseGlyph then SendToBackWorld(a, t') else a)
  {
    var d := AttackDamage(w, w.player, t);
    var a := Attack(w, w.player, t);
    AttackKeepsPositions(w, w.player, t);
    assert a.player == HitIndex(w, t, d, w.player);
    var t' := HitIndex(w, t, d, t);
    if a.objects[t'].glyph == CorpseGlyph then
      SendToBackWorldValid(a, t');
      SendToBackWorld(a, t')
    else a
  }

  /** Walking into a fighter never moves the player, whatever the attack does to the target. */
  lemma {:induction false} AttackingDoesNotMove(w: GameMap, dx: int, dy: int)
    requires Valid(w) && UnitStep(dx, dy) && (dx, dy) != (0, 0)
    requires var p := w.objects[w.player];
             exists k :: 0 <= k < |w.objects| && w.objects[k].fighter.Some? &&
                         w.objects[k].x == p.x + dx && w.objects[k].y == p.y + dy
    ensures var r := PlayerMoveOrAttack(w, dx, dy); var p := w.objects[w.player];
            && (r.objects[r.player].x, r.objects[r.player].y) == (p.x, p.y)
            && r.objects[r.player].wait == p.fighter.value.attackSpeed
  {
    var p := w.objects[w.player];
    var k :| 0 <= k < |w.objects| && w.objects[k].fighter.Some? &&
             w.objects[k].x == p.x + dx && w.objects[k].y == p.y + dy;
    assert !(forall j :: 0 <= j < |w.objects| ==>
               !(w.objects[j].fighter.Some? && w.objects[j].x == p.x + dx && w.objects[j].y == p.y + dy));
  }

  // ---------------------------------------------------------------------------
  // NPC turns

  /**
   * Piece i's slot in the sweep: a piece with an AI that is still waiting
   * counts its wait down by one; one that is not takes its turn; a piece
   * without an AI is skipped.
   */
  function SweepStep(w: GameMap, i: nat, fov: set<Cell>, input: TurnInput): (r: GameMap)
    requires Valid(w) && i < |w.objects| && InputOk(input)
    ensures Valid(r) && r.level == w.level && r.player == w.player && |r.objects| == |w.objects|
    ensures forall j :: 0 <= j < |w.objects| && j != i && j != w.player ==> r.objects[j] == w.objects[j]
    ensures w.objects[i].ai.None? ==> r == w
    ensures w.objects[i].ai.Some? && w.objects[i].wait > 0 ==>
              r.objects[i] == w.objects[i].(wait := w.objects[i].wait - 1) &&
              forall j :: 0 <= j < |w.objects| && j != i ==> r.objects[j] == w.objects[j]
  {
    var p := w.objects[i];
    if p.ai.None? then w
    else if p.wait > 0 then w.(objects := w.objects[i := p.(wait := p.wait - 1)])
    else TakeTurn(w, i, fov, input)
  }

  /** A piece with an AI that is not waiting takes its turn in its slot. */
  lemma {:induction false} SweepStepTakesTurn(w: GameMap, i: nat, fov: set<Cell>, input: TurnInput)
    requires Valid(w) && i < |w.objects| && InputOk(input)
    requires w.objects[i].ai.Some? && w.objects[i].wait <= 0
    ensures SweepStep(w, i, fov, input) == TakeTurn(w, i, fov, input)
  {
  }

  predicate InputsOk(inputs: seq<TurnInput>) {
    forall k :: 0 <= k < |inputs| ==> InputOk(inputs[k])
  }

  /**
   * The worlds the sweep over the map's list passes through, in list order:
   * the start, then the world after each of the first n slots.
   */
  function SweepTrace(w: GameMap, fov: set<Cell>, inputs: seq<TurnInput>, n: nat): (t: seq<GameMap>)
    requires Valid(w) && n <= |w.objects| && |inputs| == |w.objects| && InputsOk(inputs)
    ensures |t| == n + 1 && t[0] == w
    ensures forall k :: 0 <= k < |t| ==>
              Valid(t[k]) && t[k].level == w.level && t[k].player == w.player && |t[k].objects| == |w.objects|
    ensures forall k :: 0 <= k < n ==> t[k + 1] == SweepStep(t[k], k, fov, inputs[k])
    decreases n
  {
    if n == 0 then [w]
    else
      var t := SweepTrace(w, fov, inputs, n - 1);
      var last := SweepStep(t[n - 1], n - 1, fov, inputs[n - 1]);
      var r := t + [last];
      assert forall k :: 0 <= k < n ==> r[k] == t[k];
      assert r[n] == last;
      r
  }

  /** Piece j is the same before and after step m of a list of worlds. */
  predicate SameAcross(t: seq<GameMap>, m: nat, j: nat)
    requires m + 1 < |t|
  {
    j < |t[m].objects| && j < |t[m + 1].objects| && t[m + 1].objects[j] == t[m].objects[j]
  }

  /** Along a list of worlds, piece j stays the same across every step from a to b. */
  predicate PieceSteady(t: seq<GameMap>, j: nat, a: nat, b: nat)
    requires a <= b < |t|
  {
    forall m :: a <= m < b ==> SameAcross(t, m, j)
  }

  lemma {:induction false} SteadyPieceUnchanged(t: seq<GameMap>, j: nat, a: nat, b: nat)
    requires a <= b < |t| && j < |t[a].objects| && PieceSteady(t, j, a, b)
    ensures j < |t[b].objects| && t[b].objects[j] == t[a].objects[j]
    decreases b - a
  {
    if a < b {
      assert PieceSteady(t, j, a, b - 1);
      SteadyPieceUnchanged(t, j, a, b - 1);
      assert SameAcross(t, b - 1, j);
    }
  }

  /** Slot m changes no piece but its own and the player. */
  lemma {:induction false} SweepTraceOtherSlots(w: GameMap, fov: set<Cell>, inputs: seq<TurnInput>, j: nat)
    requires Valid(w) && |inputs| == |w.objects| && InputsOk(inputs)
    requires j < |w.objects| && j != w.player
    ensures var t := SweepTrace(w, fov, inputs, |w.objects|);
            PieceSteady(t, j, 0, j) && PieceSteady(t, j, j + 1, |w.objects|)
  {
    var t := SweepTrace(w, fov, inputs, |w.objects|);
    forall m | 0 <= m < |w.objects| && m != j
      ensures SameAcross(t, m, j)
    {
      assert t[m + 1] == SweepStep(t[m], m, fov, inputs[m]);
    }
  }

  /**
   * Every piece other than the player is changed only in its own slot of
   * the sweep: it enters that slot as it was, and what the slot makes of
   * it is what the whole sweep leaves.
   */
  lemma {:induction false} SweepTouchesEachOnce(w: GameMap, fov: set<Cell>, inputs: seq<TurnInput>, j: nat)
    requires Valid(w) && |inputs| == |w.objects| && InputsOk(inputs)
    requires j < |w.objects| && j != w.player
    ensures var t := SweepTrace(w, fov, inputs, |w.objects|);
            && t[j].objects[j] == w.objects[j]
            && t[|w.objects|].objects[j] == SweepStep(t[j], j, fov, inputs[j]).objects[j]
  {
    var t := SweepTrace(w, fov, inputs, |w.objects|);
    SweepTraceOtherSlots(w, fov, inputs, j);
    SteadyPieceUnchanged(t, j, 0, j);
    SteadyPieceUnchanged(t, j, j + 1, |w.objects|);
  }

  /** One whole sweep: each piece's slot in list order. */
  function Sweep(w: GameMap, fov: set<Cell>, inputs: seq<TurnInput>): (r: GameMap)
    requires Valid(w) && |inputs| == |w.objects| && InputsOk(inputs)
    ensures Valid(r) && r.level == w.level && r.player == w.player && |r.objects| == |w.objects|
    ensures forall j :: 0 <= j < |w.objects| && j != w.player && w.objects[j].ai.None? ==> r.objects[j] == w.objects[j]
    ensures forall j :: 0 <= j < |w.objects| && j != w.player && w.objects[j].ai.Some? && w.objects[j].wait > 0 ==>
              r.objects[j] == w.objects[j].(wait := w.objects[j].wait - 1)
  {
    var t := SweepTrace(w, fov, inputs, |w.objects|);
    SweepSkipsAndCountsDown(w, fov, inputs);
    t[|w.objects|]
  }

  /** A piece without an AI is skipped; a waiting one only counts down. */
  lemma {:induction false} SweepSkipsAndCountsDown(w: GameMap, fov: set<Cell>, inputs: seq<TurnInput>)
    requires Valid(w) && |inputs| == |w.objects| && InputsOk(inputs)
    ensures var t := SweepTrace(w, fov, inputs, |w.objects|);
            && (forall j :: 0 <= j < |w.objects| && j != w.player && w.objects[j].ai.None? ==>
                  t[|w.objects|].objects[j] == w.objects[j])
            && (forall j :: 0 <= j < |w.objects| && j != w.player && w.objects[j].ai.Some? && w.objects[j].wait > 0 ==>
                  t[|w.objects|].objects[j] == w.objects[j].(wait := w.objects[j].wait - 1))
  {
    var t := SweepTrace(w, fov, inputs, |w.objects|);
    forall j | 0 <= j < |w.objects| && j != w.player
      ensures w.objects[j].ai.None? ==> t[|w.objects|].objects[j] == w.objects[j]
      ensures w.objects[j].ai.Some? && w.objects[j].wait > 0 ==>
                t[|w.objects|].objects[j] == w.objects[j].(wait := w.objects[j].wait - 1)
    {
      SweepTouchesEachOnce(w, fov, inputs, j);
    }
  }

  /** The NPCs' turns run only while the game is being played. */
  function NpcTurns(w: GameMap, state: GameState, fov: set<Cell>, inputs: seq<TurnInput>): (r: GameMap)
    requires Valid(w) && |inputs| == |w.objects| && InputsOk(inputs)
    ensures Valid(r) && r.level == w.level && r.player == w.player && |r.objects| == |w.objects|
    ensures state != Playing ==> r == w
    ensures forall j :: 0 <= j < |w.objects| && j != w.player && w.objects[j].ai.None? ==> r.objects[j] == w.objects[j]
    ensures state == Playing ==>
              forall j :: 0 <= j < |w.objects| && j != w.player && w.objects[j].ai.Some? && w.objects[j].wait > 0 ==>
                r.objects[j] == w.objects[j].(wait := w.objects[j].wait - 1)
  {
    if state == Playing then Sweep(w, fov, inputs) else w
  }

  /**
   * Per-frame answers for a list of n pieces: one field of view and one
   * list of turn inputs, one input per slot, for each frame.
   */
  predicate FramesOk(n: nat, fovs: seq<set<Cell>>, frames: seq<seq<TurnInput>>) {
    && |fovs| == |frames|
    && forall k :: 0 <= k < |frames| ==> |frames[k]| == n && InputsOk(frames[k])
  }

  /**
   * One sweep per frame, in order, each frame with its own field of view
   * and its own random and route-finding answers. A waiting NPC acts again
   * only after exactly `wait` frames: every frame before then just counts
   * its wait down, whatever the frames show.
   */
  function Sweeps(w: GameMap, fovs: seq<set<Cell>>, frames: seq<seq<TurnInput>>): (r: GameMap)
    requires Valid(w) && FramesOk(|w.objects|, fovs, frames)
    ensures Valid(r) && r.level == w.level && r.player == w.player && |r.objects| == |w.objects|
    ensures forall j :: 0 <= j < |w.objects| && j != w.player && w.objects[j].ai.Some? && |frames| <= w.objects[j].wait ==>
              r.objects[j] == w.objects[j].(wait := w.objects[j].wait - |frames|)
    decreases |frames|
  {
    if |frames| == 0 then w
    else
      var n := |frames| - 1;
      assert forall k :: 0 <= k < n ==> frames[..n][k] == frames[k];
      var before := Sweeps(w, fovs[..n], frames[..n]);
      NpcTurns(before, Playing, fovs[n], frames[n])
  }

  // ---------------------------------------------------------------------------
  // Menus

  /** The letter shown next to option k. */
  function OptionLetter(k: nat): char
    requires k < MenuMaxOptions
  {
    (97 + k) as char
  }

  /** The line shown for option k: the letter in brackets, then the text. */
  function MenuLine(k: nat, text: string): (line: string)
    requires k < MenuMaxOptions
    ensures line == "(" + [OptionLetter(k)] + ") " + text
    ensures |line| == |text| + 4 && line[1] == OptionLetter(k) && line[4..] == text
  {
    "(" + [OptionLetter(k)] + ") " + text
  }

  /**
   * The option picked by the key with character code `c` in a menu of
   * `options` lines: the key's distance from 'a', when that is an option.
   * A menu of more than 26 options is an error.
   */
  function MenuChoice(options: nat, c: int): (r: Result<Option<nat>, string>)
    ensures r.Failure? <==> options > MenuMaxOptions
    ensures r.Success? && r.value.Some? ==> r.value.value < options && c == 97 + r.value.value
    ensures r.Success? && r.value.None? ==> !(0 <= c - 97 < options)
  {
    if options > MenuMaxOptions then Result<Option<nat>, string>.Failure("Cannot have a menu with more than 26 options.")
    else if 0 <= c - 97 < options then Success(Some(c - 97))
    else Success(None)
  }

  /** Pressing the letter shown on a line picks that line, and only that line. */
  lemma {:induction false} MenuLetterPicksLine(options: nat, k: nat, c: int)
    requires k < options <= MenuMaxOptions
    ensures MenuChoice(options, MenuLine(k, "")[1] as int) == Success(Some(k))
    ensures MenuChoice(options, c) == Success(Some(k)) <==> c == MenuLine(k, "")[1] as int
  {
  }

  /** The text of one inventory line: the name, and the slot when it is worn. */
  function InventoryText(p: GamePiece): (t: string)
    ensures IsEquipped(p) ==> t == p.name + " (on " + p.equipment.value.slot + ")"
    ensures !IsEquipped(p) ==> t == p.name
  {
    if IsEquipped(p) then p.name + " (on " + p.equipment.value.slot + ")" else p.name
  }

  /** The inventory menu's lines; an empty inventory shows one placeholder line. */
  function InventoryOptions(inventory: seq<GamePiece>): (options: seq<string>)
    ensures |inventory| == 0 ==> options == ["Inventory is empty"]
    ensures |inventory| > 0 ==> |options| == |inventory|
    ensures |inventory| > 0 ==> forall k :: 0 <= k < |inventory| ==> options[k] == InventoryText(inventory[k])
  {
    if |inventory| == 0 then ["Inventory is empty"]
    else seq(|inventory|, k requires 0 <= k < |inventory| => InventoryText(inventory[k]))
  }

  /**
   * The inventory piece picked from the inventory menu by the key with
   * code `c`. The placeholder line of an empty inventory picks nothing.
   */
  function InventoryMenuChoice(inventory: seq<GamePiece>, c: int): (r: Result<Option<nat>, string>)
    ensures r.Failure? <==> |inventory| > MenuMaxOptions
    ensures r.Success? && r.value.Some? ==> r.value.value < |inventory| && c == 97 + r.value.value
    ensures |inventory| == 0 ==> r == Success(None)
    ensures 0 < |inventory| <= MenuMaxOptions ==> r == MenuChoice(|inventory|, c)
  {
    match MenuChoice(|InventoryOptions(inventory)|, c)
    case Failure(e) => Failure(e)
    case Success(choice) =>
      if choice.None? || |inventory| == 0 then Success(None) else Success(choice)
  }

  // ---------------------------------------------------------------------------
  // Remembering what was seen

  /** r is m with `explored` set on the cells in fov, and nothing else changed. */
  ghost predicate MarkedFrom(m: Grid, fov: set<Cell>, r: Grid)
    requires WellFormed(m)
  {
    && WellFormed(r)
    && forall x, y :: InBounds(x, y) ==>
         r[x][y] == m[x][y].(explored := m[x][y].explored || (x, y) in fov)
  }

  /** The drawing pass remembers every visible tile as explored. */
  method MarkExplored(m: Grid, fov: set<Cell>) returns (r: Grid)
    requires WellFormed(m)
    ensures MarkedFrom(m, fov, r)
    ensures forall x, y :: InBounds(x, y) ==> (r[x][y].explored <==> m[x][y].explored || (x, y) in fov)
  {
    r := Paint(m, 0, MapWidth, 0, MapHeight,
               (x: int, y: int, t: Tile) => t.(explored := t.explored || (x, y) in fov));
  }

  /** Every cell of the map. */
  function AllCells(): (cells: set<Cell>)
    ensures forall x, y :: InBounds(x, y) <==> (x, y) in cells
  {
    set x, y | 0 <= x < MapWidth && 0 <= y < MapHeight :: (x, y)
  }

  /** The reveal key marks the whole map explored, as if all of it were seen. */
  method RevealMap(m: Grid) returns (r: Grid)
    requires WellFormed(m)
    ensures MarkedFrom(m, AllCells(), r)
    ensures forall x, y :: InBounds(x, y) ==> r[x][y].explored
  {
    r := Paint(m, 0, MapWidth, 0, MapHeight, (x: int, y: int, t: Tile) => t.(explored := true));
  }

  /** Explored tiles stay explored, whatever the next frame shows. */
  lemma {:induction false} MarkingNeverForgets(m: Grid, fov: set<Cell>, r: Grid)
    requires WellFormed(m) && MarkedFrom(m, fov, r)
    ensures forall x, y :: InBounds(x, y) && m[x][y].explored ==> r[x][y].explored
    ensures forall x, y :: InBounds(x, y) && (x, y) !in fov ==> r[x][y] == m[x][y]
  {
  }

  /** Two frames remember exactly what one frame seeing both views would. */
  lemma {:induction false} MarkingComposes(m: Grid, fov1: set<Cell>, r1: Grid, fov2: set<Cell>, r2: Grid)
    requires WellFormed(m) && MarkedFrom(m, fov1, r1) && MarkedFrom(r1, fov2, r2)
    ensures MarkedFrom(m, fov1 + fov2, r2)
  {
    forall x, y | InBounds(x, y)
      ensures r2[x][y] == m[x][y].(explored := m[x][y].explored || (x, y) in fov1 + fov2)
    {
      assert r1[x][y] == m[x][y].(explored := m[x][y].explored || (x, y) in fov1);
      assert r2[x][y] == r1[x][y].(explored := r1[x][y].explored || (x, y) in fov2);
    }
  }

  /** Seeing the same view again changes nothing. */
  lemma {:induction false} MarkingIdempotent(m: Grid, fov: set<Cell>, r: Grid)
    requires WellFormed(m) && MarkedFrom(m, fov, r)
    ensures MarkedFrom(r, fov, r)
  {
  }

  // ---------------------------------------------------------------------------
  // Construction designation

  /** A mouse coordinate pulled into [0, size). */
  function ClampRelease(v: int, size: nat): (r: int)
    requires size > 0
    ensures 0 <= r < size
    ensures 0 <= v < size ==> r == v
    ensures v >= size ==> r == size - 1
    ensures v < 0 ==> r == 0
  {
    if v >= size then size - 1 else if v < 0 then 0 else v
  }

  /** A tile marked for clearing. */
  function Designate(t: Tile): (r: Tile)
    ensures r.designated && r.designationType == Some(Clearing) && r.designationChar == Some('+')
    ensures r.(designated := t.designated, designationType := t.designationType, designationChar := t.designationChar) == t
  {
    t.(designated := true, designationType := Some(Clearing), designationChar := Some('+'))
  }

  /** (x, y) lies in the dragged-out block from (x1, y1) to (x2, y2), both corners included. */
  predicate InDrag(x1: int, y1: int, x2: int, y2: int, x: int, y: int) {
    x1 <= x <= x2 && y1 <= y <= y2
  }

  /** r is m with the cells of the block marked for clearing, and nothing else changed. */
  ghost predicate DesignatedFrom(m: Grid, x1: int, y1: int, x2: int, y2: int, r: Grid)
    requires WellFormed(m)
  {
    && WellFormed(r)
    && (forall x, y :: InBounds(x, y) && InDrag(x1, y1, x2, y2, x, y) ==> r[x][y] == Designate(m[x][y]))
    && (forall x, y :: InBounds(x, y) && !InDrag(x1, y1, x2, y2, x, y) ==> r[x][y] == m[x][y])
  }

  /**
   * The mouse button went down on (startx, starty) and came up on
   * (relx, rely). The release point is clamped onto the map; a drag down
   * and to the right marks the block between the two points, and a drag
   * in any other direction marks nothing.
   */
  method DesignateArea(m: Grid, startx: nat, starty: nat, relx: int, rely: int) returns (r: Grid)
    requires WellFormed(m)
    ensures var newx, newy := ClampRelease(relx, MapWidth), ClampRelease(rely, MapHeight);
            newx >= startx && newy >= starty ==> DesignatedFrom(m, startx, starty, newx, newy, r)
    ensures var newx, newy := ClampRelease(relx, MapWidth), ClampRelease(rely, MapHeight);
            newx < startx || newy < starty ==> r == m
  {
    var newx := ClampRelease(relx, MapWidth);
    var newy := ClampRelease(rely, MapHeight);
    if newx >= startx && newy >= starty {
      r := Paint(m, startx, newx + 1, starty, newy + 1, (x: int, y: int, t: Tile) => Designate(t));
    } else {
      r := m;
    }
  }

  /** Designation never changes what can be walked or seen through, so the border stays closed. */
  lemma {:induction false} DesignationKeepsTerrain(m: Grid, x1: int, y1: int, x2: int, y2: int, r: Grid)
    requires WellFormed(m) && DesignatedFrom(m, x1, y1, x2, y2, r)
    ensures forall x, y :: InBounds(x, y) ==>
              r[x][y].blocked == m[x][y].blocked && r[x][y].blockSight == m[x][y].blockSight &&
              r[x][y].explored == m[x][y].explored
    ensures BorderClosed(m) ==> BorderClosed(r)
  {
  }

  /** Designating the same block twice is the same as once. */
  lemma {:induction false} DesignationIdempotent(m: Grid, x1: int, y1: int, x2: int, y2: int, r1: Grid, r2: Grid)
    requires WellFormed(m) && DesignatedFrom(m, x1, y1, x2, y2, r1) && DesignatedFrom(r1, x1, y1, x2, y2, r2)
    ensures r2 == r1
  {
    forall x | 0 <= x < MapWidth ensures r2[x] == r1[x] {
      forall y | 0 <= y < MapHeight ensures r2[x][y] == r1[x][y] {
        assert InBounds(x, y);
      }
    }
  }

  // ---------------------------------------------------------------------------
  // Keys

  datatype KeyCode =
    | KeyEnter | KeyEscape
    | KeyUp | KeyDown | KeyLeft | KeyRight | KeyHome | KeyPageUp | KeyEnd | KeyPageDown
    | Kp1 | Kp2 | Kp3 | Kp4 | Kp5 | Kp6 | Kp7 | Kp8 | Kp9
    | OtherKey

  /** A key press: its key code, its character code, and whether Alt was held. */
  datatype Key = Key(vk: KeyCode, c: int, lalt: bool)

  /** What handling a key press reports back to the main loop. */
  datatype Action =
    | Exit              // leave the game
    | Nothing           // the player moved, attacked, waited, or may not act
    | DidntTakeTurn     // a command key that is not a move
    | NextMap           // take the stairs down
    | Raised(error: string)
    | NotModelled       // a command whose effect lies outside this model

  /** The step a movement key asks for; the arrow keys and the keypad agree. */
  function Direction(vk: KeyCode): (d: Option<(int, int)>)
    ensures d.Some? ==> UnitStep(d.value.0, d.value.1) && d.value != (0, 0)
    ensures d.None? <==> vk in {KeyEnter, KeyEscape, Kp5, OtherKey}
  {
    match vk
    case KeyUp | Kp8 => Some((0, -1))
    case KeyDown | Kp2 => Some((0, 1))
    case KeyLeft | Kp4 => Some((-1, 0))
    case KeyRight | Kp6 => Some((1, 0))
    case KeyHome | Kp7 => Some((-1, -1))
    case KeyPageUp | Kp9 => Some((1, -1))
    case KeyEnd | Kp1 => Some((-1, 1))
    case KeyPageDown | Kp3 => Some((1, 1))
    case _ => None
  }

  /** The keys of the numeric keypad. */
  predicate IsKeypad(vk: KeyCode) {
    match vk
    case Kp1 | Kp2 | Kp3 | Kp4 | Kp5 | Kp6 | Kp7 | Kp8 | Kp9 => true
    case _ => false
  }

  /**
   * Each of the eight steps is asked for by exactly two keys: one on the
   * arrow and navigation block, and its counterpart on the keypad.
   */
  lemma {:induction false} EveryStepHasTwoKeys(dx: int, dy: int)
    requires UnitStep(dx, dy) && (dx, dy) != (0, 0)
    ensures exists a, b :: !IsKeypad(a) && IsKeypad(b) &&
              Direction(a) == Some((dx, dy)) && Direction(b) == Some((dx, dy)) &&
              forall vk :: Direction(vk) == Some((dx, dy)) ==> vk == a || vk == b
  {
    var keys :=
      if (dx, dy) == (0, -1) then (KeyUp, Kp8)
      else if (dx, dy) == (0, 1) then (KeyDown, Kp2)
      else if (dx, dy) == (-1, 0) then (KeyLeft, Kp4)
      else if (dx, dy) == (1, 0) then (KeyRight, Kp6)
      else if (dx, dy) == (-1, -1) then (KeyHome, Kp7)
      else if (dx, dy) == (1, -1) then (KeyPageUp, Kp9)
      else if (dx, dy) == (-1, 1) then (KeyEnd, Kp1)
      else (KeyPageDown, Kp3);
    var (a, b) := keys;
    assert Direction(a) == Some((dx, dy)) && Direction(b) == Some((dx, dy));
    forall vk | Direction(vk) == Some((dx, dy)) ensures vk == a || vk == b {
    }
  }

  function ItemFrom(objects: seq<GamePiece>, x: int, y: int, i: nat): (r: Option<nat>)
    requires i <= |objects|
    ensures r.Some? ==> i <= r.value < |objects| && objects[r.value].item.Some? &&
                        objects[r.value].x == x && objects[r.value].y == y
    ensures r.Some? ==> forall k :: i <= k < r.value ==> !(objects[k].item.Some? && objects[k].x == x && objects[k].y == y)
    ensures r.None? <==> forall k :: i <= k < |objects| ==> !(objects[k].item.Some? && objects[k].x == x && objects[k].y == y)
    decreases |objects| - i
  {
    if i == |objects| then None
    else if objects[i].item.Some? && objects[i].x == x && objects[i].y == y then Some(i)
    else ItemFrom(objects, x, y, i + 1)
  }

  /** The first piece in list order that is an item and lies on (x, y). */
  function FirstItemAt(objects: seq<GamePiece>, x: int, y: int): (r: Option<nat>)
    ensures r.Some? ==> r.value < |objects| && objects[r.value].item.Some? &&
                        objects[r.value].x == x && objects[r.value].y == y
    ensures r.None? <==> forall k :: 0 <= k < |objects| ==> !(objects[k].item.Some? && objects[k].x == x && objects[k].y == y)
  {
    ItemFrom(objects, x, y, 0)
  }

  function NamedFrom(objects: seq<GamePiece>, name: string, i: nat): (r: Option<nat>)
    requires i <= |objects|
    ensures r.Some? ==> i <= r.value < |objects| && objects[r.value].name == name
    ensures r.Some? ==> forall k :: i <= k < r.value ==> objects[k].name != name
    ensures r.None? <==> forall k :: i <= k < |objects| ==> objects[k].name != name
    decreases |objects| - i
  {
    if i == |objects| then None
    else if objects[i].name == name then Some(i)
    else NamedFrom(objects, name, i + 1)
  }

  /** The first piece in list order with the given name. */
  function FirstNamed(objects: seq<GamePiece>, name: string): (r: Option<nat>)
    ensures r.Some? ==> r.value < |objects| && objects[r.value].name == name
    ensures r.Some? ==> forall k :: 0 <= k < r.value ==> objects[k].name != name
    ensures r.None? <==> forall k :: 0 <= k < |objects| ==> objects[k].name != name
  {
    NamedFrom(objects, name, 0)
  }

  /** The player's inventory replaced. */
  function WithPlayerInventory(w: GameMap, inventory: seq<GamePiece>): (r: GameMap)
    requires Valid(w) && forall j :: 0 <= j < |inventory| ==> AiCanFight(inventory[j])
    ensures Valid(r) && r.level == w.level && r.player == w.player && |r.objects| == |w.objects|
    ensures r.objects == w.objects[w.player := w.objects[w.player].(inventory := inventory)]
  {
    w.(objects := w.objects[w.player := w.objects[w.player].(inventory := inventory)])
  }

  /**
   * The command keys, keyed by the character code `c` of the press.
   * `menuKey` is the key pressed in the inventory menu the use and drop
   * commands open, and `outcome` what the used item's effect reports. A
   * code outside 0..255 has no character and is an error.
   */
  method CommandKey(w: GameMap, c: int, menuKey: int, outcome: UseOutcome) returns (r: GameMap, action: Action)
    requires Valid(w)
    ensures Valid(r)
    ensures c != 'm' as int ==> r.level == w.level
    ensures action == DidntTakeTurn || action == NextMap || action.Raised? || action == NotModelled
    ensures !(0 <= c < 256) ==> r == w && action == Raised("chr() arg not in range(256)")
    ensures c == 'g' as int ==> action == DidntTakeTurn
    ensures c == 'g' as int ==>
              var p := w.objects[w.player];
              match FirstItemAt(w.objects, p.x, p.y)
              case None => r == w
              case Some(k) => k != w.player && r == PickUp(w, k, w.player)
    ensures c == 'm' as int ==> action == DidntTakeTurn && MarkedFrom(w.level, AllCells(), r.level) &&
                                 r == w.(level := r.level)
    ensures c == '>' as int ==>
              var s := FirstNamed(w.objects, "stairs"); var p := w.objects[w.player];
              r == w && (action == NextMap <==> s.Some? && w.objects[s.value].x == p.x && w.objects[s.value].y == p.y)
    ensures c == '<' as int ==>
              r == w && (FirstNamed(w.objects, "stairs").Some? ==> action.Raised?) &&
              (FirstNamed(w.objects, "stairs").None? ==> action == DidntTakeTurn)
    ensures c == 'i' as int || c == 'd' as int ==>
              var inv := w.objects[w.player].inventory;
              match InventoryMenuChoice(inv, menuKey)
              case Failure(e) => r == w && action == Raised(e)
              case Success(choice) =>
                action == DidntTakeTurn &&
                if choice.None? || inv[choice.value].item.None? then r == w
                else if c == 'i' as int then
                  r == WithPlayerInventory(w, UseItem(inv, choice.value, outcome))
                else r == Drop(w, w.player, choice.value)
    ensures 0 <= c < 256 &&
            c !in {'g' as int, 'i' as int, 'd' as int, 'm' as int, '>' as int, '<' as int, 'q' as int, 'L' as int} ==>
              r == w && action == DidntTakeTurn
  {
    var p := w.objects[w.player];
    r, action := w, DidntTakeTurn;
    if !(0 <= c < 256) {
      action := Raised("chr() arg not in range(256)");
    } else if c == 'g' as int {
      match FirstItemAt(w.objects, p.x, p.y)
      case None =>
      case Some(k) =>
        r := PickUp(w, k, w.player);
    } else if c == 'i' as int || c == 'd' as int {
      var inv := p.inventory;
      match InventoryMenuChoice(inv, menuKey)
      case Failure(e) =>
        action := Raised(e);
      case Success(choice) =>
        if choice.Some? && inv[choice.value].item.Some? {
          if c == 'i' as int {
            assert forall j :: 0 <= j < |inv| ==> AiCanFight(inv[j]) by {
              assert AiCanFight(w.objects[w.player]);
            }
            r := WithPlayerInventory(w, UseItem(inv, choice.value, outcome));
          } else {
            r := Drop(w, w.player, choice.value);
          }
        }
    } else if c == '>' as int {
      var s := FirstNamed(w.objects, "stairs");
      if s.Some? && w.objects[s.value].x == p.x && w.objects[s.value].y == p.y {
        action := NextMap;
      }
    } else if c == '<' as int {
      // With stairs on the map the test reads an up staircase that is never defined.
      if FirstNamed(w.objects, "stairs").Some? {
        action := Raised("global name 'upstairs' is not defined");
      }
    } else if c == 'q' as int || c == 'L' as int {
      action := NotModelled;
    } else if c == 'm' as int {
      var level := RevealMap(w.level);
      r := w.(level := level);
    }
  }

  /**
   * Handle one key press. Escape leaves the game. Otherwise, while the game
   * is being played: a player still waiting counts its wait down and does
   * nothing else; a movement key moves or attacks; the centre keypad key
   * waits; any other key is a command.
   */
  method HandleKeys(w: GameMap, state: GameState, key: Key, menuKey: int, outcome: UseOutcome)
    returns (r: GameMap, action: Action)
    requires Valid(w)
    ensures key.vk == KeyEscape ==> r == w && action == Exit
    ensures key.vk != KeyEscape && state != Playing ==> r == w && action == Nothing
    ensures key.vk != KeyEscape && state == Playing && w.objects[w.player].wait > 0 ==>
              && action == Nothing
              && r == w.(objects := w.objects[w.player := w.objects[w.player].(wait := w.objects[w.player].wait - 1)])
    ensures key.vk != KeyEscape && state == Playing && w.objects[w.player].wait <= 0 && Direction(key.vk).Some? ==>
              action == Nothing && r == PlayerMoveOrAttack(w, Direction(key.vk).value.0, Direction(key.vk).value.1)
    ensures key.vk != KeyEscape && state == Playing && w.objects[w.player].wait <= 0 && key.vk == Kp5 ==>
              r == w && action == Nothing
    ensures key.vk != KeyEscape && state == Playing && w.objects[w.player].wait <= 0 &&
            Direction(key.vk).None? && key.vk != Kp5 ==>
              && (action == DidntTakeTurn || action == NextMap || action.Raised? || action == NotModelled)
              && (key.c != 'm' as int ==> r.level == w.level)
              && (!(0 <= key.c < 256) ==> r == w && action == Raised("chr() arg not in range(256)"))
              && (key.c == '>' as int || key.c == '<' as int ==> r == w)
    ensures Valid(r)
  {
    var p := w.objects[w.player];
    if key.vk == KeyEscape {
      return w, Exit;
    }
    if state != Playing {
      return w, Nothing;
    }
    if p.wait > 0 {
      r := w.(objects := w.objects[w.player := p.(wait := p.wait - 1)]);
      return r, Nothing;
    }
    var d := Direction(key.vk);
    if d.Some? {
      r := PlayerMoveOrAttack(w, d.value.0, d.value.1);
      return r, Nothing;
    }
    if key.vk == Kp5 {
      return w, Nothing;
    }
    r, action := CommandKey(w, key.c, menuKey, outcome);
  }
}
